/** The answer-option loop shared by the arithmetic drills: start from the set
    {answer}, then draw offsets `Math.floor(Math.random() * 10) - 5` and add
    `answer + offset` whenever it is positive and not the answer, until the set
    holds four values. Each draw is the integer `d < 10` that
    `Math.floor(Math.random() * 10)` produced, so the offset is `d - 5`. The
    stream of draws is finite here; when it runs out before four options
    exist the loop stops early, which the real random source never does. */
module AnswerOptions {
  import opened Common

  /** How many options a problem shows. */
  const OptionCount: nat := 4

  /** The value a draw proposes. */
  function Candidate(answer: int, d: nat): int
  {
    answer + d - 5
  }

  /** A value the loop may add next to the answer: positive, different from the
      answer and inside the asymmetric window [answer - 5, answer + 4]. */
  predicate Admissible(answer: int, option: int)
  {
    option > 0 && option != answer && answer - 5 <= option <= answer + 4
  }

  /** The Set in insertion order: the answer first, then distinct admissible values. */
  predicate WellFormed(answer: int, opts: seq<int>)
  {
    && 1 <= |opts| <= OptionCount
    && opts[0] == answer
    && Distinct(opts)
    && forall i :: 1 <= i < |opts| ==> Admissible(answer, opts[i])
  }

  predicate ValidDraws(draws: seq<nat>)
  {
    forall i :: 0 <= i < |draws| ==> draws[i] < 10
  }

  /** The loop's effect on the Set `opts` when it is handed the draws `ds`. */
  function FillFrom(answer: int, opts: seq<int>, ds: seq<nat>): (r: seq<int>)
    requires WellFormed(answer, opts) && ValidDraws(ds)
    ensures WellFormed(answer, r)
    ensures |opts| <= |r| && r[..|opts|] == opts
    decreases ds
  {
    if |opts| >= OptionCount || ds == [] then opts
    else
      var option := Candidate(answer, ds[0]);
      var opts' := if option > 0 && option != answer && option !in opts then opts + [option] else opts;
      FillFrom(answer, opts', ds[1..])
  }

  /** The options a problem gets from the draw stream `draws`. */
  function Fill(answer: int, draws: seq<nat>): seq<int>
    requires ValidDraws(draws)
  {
    FillFrom(answer, [answer], draws)
  }

  /** The `while (options.size < 4)` loop. */
  method BuildOptions(answer: int, draws: seq<nat>) returns (options: seq<int>, used: nat)
    requires ValidDraws(draws)
    ensures options == Fill(answer, draws)
    ensures WellFormed(answer, options)
    ensures used <= |draws|
    ensures |options| == OptionCount || used == |draws|
  {
    options := [answer];
    used := 0;
    while |options| < OptionCount && used < |draws|
      invariant used <= |draws|
      invariant WellFormed(answer, options)
      invariant FillFrom(answer, options, draws[used..]) == Fill(answer, draws)
    {
      var option := Candidate(answer, draws[used]);
      if option > 0 && option != answer && option !in options {
        options := options + [option];
      }
      assert draws[used..][1..] == draws[used + 1..];
      used := used + 1;
    }
  }

  /** The loop can always finish: while fewer than four values are present,
      some draw below 10 adds a new one. Only answer + 1 .. answer + 4 are
      needed, and for answer >= 0 all four are admissible. */
  lemma ProgressPossible(answer: int, opts: seq<int>) returns (d: nat)
    requires answer >= 0 && WellFormed(answer, opts) && |opts| < OptionCount
    ensures 6 <= d < 10 && Admissible(answer, Candidate(answer, d)) && Candidate(answer, d) !in opts
  {
    var above := {answer + 1, answer + 2, answer + 3, answer + 4};
    if forall v :: v in above ==> v in opts {
      var held := above + {answer};
      assert |held| == 5;
      SubsetOfDistinct(opts, held);
      assert false;
    }
    var v :| v in above && v !in opts;
    d := v - answer + 5;
  }

  /** A distinct sequence holds at least as many elements as any set of its members. */
  lemma {:induction false} SubsetOfDistinct(s: seq<int>, x: set<int>)
    requires Distinct(s) && forall v :: v in x ==> v in s
    ensures |x| <= |s|
  {
    if s != [] {
      var last := s[|s| - 1];
      var s' := s[..|s| - 1];
      forall v | v in x - {last}
        ensures v in s'
      {
        var i :| 0 <= i < |s| && s[i] == v;
        assert i != |s| - 1;
      }
      SubsetOfDistinct(s', x - {last});
    } else {
      assert forall v :: v !in x;
    }
  }

  /** Draws that propose each of answer + 1 .. answer + 4 (the draws 6, 7, 8
      and 9) are enough for the loop to collect four options, whatever else
      the stream holds and in whatever order. */
  lemma FillCompletes(answer: int, draws: seq<nat>)
    requires answer >= 0 && ValidDraws(draws)
    requires forall d :: 6 <= d <= 9 ==> d in draws
    ensures |Fill(answer, draws)| == OptionCount
  {
    var start := [answer];
    forall v | answer + 1 <= v <= answer + 4
      ensures v in start || exists j :: 0 <= j < |draws| && Candidate(answer, draws[j]) == v
    {
      assert v - answer + 5 in draws;
      var j :| 0 <= j < |draws| && draws[j] == v - answer + 5;
      assert Candidate(answer, draws[j]) == v;
    }
    FillFromCompletes(answer, start, draws);
  }

  /** The induction behind FillCompletes: every one of answer + 1 .. answer + 4
      is already an option or proposed by a draw still to come. */
  lemma {:induction false} FillFromCompletes(answer: int, opts: seq<int>, ds: seq<nat>)
    requires answer >= 0 && WellFormed(answer, opts) && ValidDraws(ds)
    requires forall v :: answer + 1 <= v <= answer + 4 ==>
               v in opts || exists j :: 0 <= j < |ds| && Candidate(answer, ds[j]) == v
    ensures |FillFrom(answer, opts, ds)| == OptionCount
    decreases ds
  {
    if |opts| >= OptionCount {
    } else if ds == [] {
      var d := ProgressPossible(answer, opts);
      assert false;
    } else {
      var option := Candidate(answer, ds[0]);
      var opts' := if option > 0 && option != answer && option !in opts then opts + [option] else opts;
      forall v | answer + 1 <= v <= answer + 4
        ensures v in opts' || exists j :: 0 <= j < |ds[1..]| && Candidate(answer, ds[1..][j]) == v
      {
        if v !in opts' {
          assert v !in opts;
          var j :| 0 <= j < |ds| && Candidate(answer, ds[j]) == v;
          assert j != 0;
          assert Candidate(answer, ds[1..][j - 1]) == v;
        }
      }
      FillFromCompletes(answer, opts', ds[1..]);
    }
  }
}
