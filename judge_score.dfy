/** The simulation and scorer: `compute_score_details` and `compute_score`. */
module JudgeScore {
  import opened Text
  import opened JudgeInput
  import opened JudgeOutput
  import opened Arith

  /** The replay state: the visit count of every position and the current position. */
  datatype SimState = SimState(counts: seq<int>, pos: nat)

  predicate StateFits(out: seq<Pair>, st: SimState)
  {
    ValidTable(|out|, out) && |st.counts| == |out| && st.pos < |out|
  }

  /** One round of the replay loop: count the visit, then follow `.0` after an odd
      count and `.1` after an even one. */
  function Step(out: seq<Pair>, st: SimState): (r: SimState)
    requires StateFits(out, st)
    ensures StateFits(out, r)
  {
    var c := st.counts[st.pos] + 1;
    SimState(st.counts[st.pos := c], if c % 2 == 1 then out[st.pos].0 else out[st.pos].1)
  }

  /** The state after `steps` rounds, starting at position 0 with every count 0. */
  function Run(out: seq<Pair>, steps: nat): (r: SimState)
    requires ValidTable(|out|, out)
    requires steps > 0 ==> |out| > 0
    ensures |r.counts| == |out|
    ensures |out| > 0 ==> r.pos < |out|
  {
    if steps == 0 then SimState(Zeros(|out|), 0) else Step(out, Run(out, steps - 1))
  }

  /** Reference definition of a visit count: the number of rounds `k < steps` that
      started at position `i`. */
  function Visits(out: seq<Pair>, steps: nat, i: nat): nat
    requires ValidTable(|out|, out)
    requires steps > 0 ==> |out| > 0
  {
    if steps == 0 then 0
    else Visits(out, steps - 1, i) + (if Run(out, steps - 1).pos == i then 1 else 0)
  }

  /** The replay's counts are exactly the visit counts. */
  lemma {:induction false} CountsAreVisits(out: seq<Pair>, steps: nat, i: nat)
    requires ValidTable(|out|, out)
    requires steps > 0 ==> |out| > 0
    requires i < |out|
    ensures Run(out, steps).counts[i] == Visits(out, steps, i)
  {
    if steps > 0 {
      CountsAreVisits(out, steps - 1, i);
    }
  }

  /** Count conservation: every round adds exactly one visit, so the counts sum to the
      number of rounds. */
  lemma {:induction false} RunConservation(out: seq<Pair>, steps: nat)
    requires ValidTable(|out|, out)
    requires steps > 0 ==> |out| > 0
    ensures Sum(Run(out, steps).counts) == steps
  {
    if steps > 0 {
      var s := Run(out, steps - 1);
      RunConservation(out, steps - 1);
      SumUpdate(s.counts, s.pos, s.counts[s.pos] + 1);
    }
  }

  /** Counts never go negative: each is a number of visits. */
  lemma CountsNonNegative(out: seq<Pair>, steps: nat)
    requires ValidTable(|out|, out)
    requires steps > 0 ==> |out| > 0
    ensures forall i :: 0 <= i < |out| ==> Run(out, steps).counts[i] >= 0
  {
    forall i | 0 <= i < |out| ensures Run(out, steps).counts[i] >= 0 {
      CountsAreVisits(out, steps, i);
    }
  }

  /** The transition rule between consecutive states: only the current position's count
      grows, by one, and its new parity picks the successor. */
  lemma TransitionRule(out: seq<Pair>, k: nat)
    requires ValidTable(|out|, out) && |out| > 0
    ensures var s, s' := Run(out, k), Run(out, k + 1);
            s'.counts[s.pos] == s.counts[s.pos] + 1
            && (forall i :: 0 <= i < |out| && i != s.pos ==> s'.counts[i] == s.counts[i])
            && s'.pos == if s'.counts[s.pos] % 2 == 1 then out[s.pos].0 else out[s.pos].1
  {
  }

  /** `Σ |counts[i] - t[i]|`. */
  function AbsDiffSum(counts: seq<int>, t: seq<int>): int
    requires |counts| == |t|
  {
    if |t| == 0 then 0
    else AbsDiffSum(counts[..|t| - 1], t[..|t| - 1]) + Abs(counts[|t| - 1] - t[|t| - 1])
  }

  lemma AbsDiffSumSnoc(counts: seq<int>, t: seq<int>, i: nat)
    requires |counts| == |t| && i < |t|
    ensures AbsDiffSum(counts[..i + 1], t[..i + 1]) == AbsDiffSum(counts[..i], t[..i]) + Abs(counts[i] - t[i])
  {
    assert counts[..i + 1][..i] == counts[..i] && t[..i + 1][..i] == t[..i];
  }

  /** `2l - Σ |counts[i] - t[i]|`. */
  function ScoreOf(l: int, t: seq<int>, counts: seq<int>): int
    requires |counts| == |t|
  {
    2 * l - AbsDiffSum(counts, t)
  }

  /** The score of a successor table: replay `l` rounds, then score the counts. */
  function FinalScore(input: Input, out: seq<Pair>): int
    requires WellFormed(input) && ValidTable(input.n, out)
    requires input.l > 0 ==> input.n > 0
  {
    ScoreOf(input.l, input.t, Run(out, input.l).counts)
  }

  /** `compute_score_details`: the counting loop over a `counts` vector, then the
      penalty loop; the error string is always empty. */
  method ComputeScoreDetails(input: Input, out: seq<Pair>) returns (score: int, err: string)
    requires WellFormed(input) && ValidTable(input.n, out)
    requires input.l > 0 ==> input.n > 0
    ensures score == FinalScore(input, out)
    ensures err == ""
  {
    var counts := new int[input.n](_ => 0);
    var pos := 0;
    ghost var st := Run(out, 0);
    assert counts[..] == st.counts;
    for k := 0 to input.l
      invariant st == Run(out, k)
      invariant counts[..] == st.counts && pos == st.pos
    {
      st := Step(out, st);
      var a := out[pos].0;
      var b := out[pos].1;
      counts[pos] := counts[pos] + 1;
      assert counts[..] == st.counts;
      if counts[pos] % 2 == 1 {
        pos := a;
      } else {
        pos := b;
      }
    }
    score := Penalty(input.l, input.t, counts);
    err := "";
  }

  /** The scoring loop of `compute_score_details`: `2l`, less each position's
      distance from its target. */
  method Penalty(l: int, t: seq<int>, counts: array<int>) returns (score: int)
    requires counts.Length == |t|
    ensures score == ScoreOf(l, t, counts[..])
  {
    score := 2 * l;
    for i := 0 to |t|
      invariant score == 2 * l - AbsDiffSum(counts[..i], t[..i])
    {
      AbsDiffSumSnoc(counts[..], t, i);
      assert counts[..i + 1] == counts[..][..i + 1];
      var diff := counts[i] - t[i];
      score := score - Abs(diff);
    }
    assert counts[..|t|] == counts[..] && t[..|t|] == t;
  }

  /** `compute_score`: the score, forced to 0 only if the error string were non-empty. */
  method ComputeScore(input: Input, o: Output) returns (score: int, err: string)
    requires WellFormed(input) && ValidTable(input.n, o.out)
    requires input.l > 0 ==> input.n > 0
    ensures score == FinalScore(input, o.out)
    ensures err == ""
  {
    score, err := ComputeScoreDetails(input, o.out);
    if |err| > 0 {
      score := 0;
    }
  }

  lemma {:induction false} AbsDiffSumZeroIff(counts: seq<int>, t: seq<int>)
    requires |counts| == |t|
    ensures AbsDiffSum(counts, t) >= 0
    ensures AbsDiffSum(counts, t) == 0 <==> counts == t
    decreases |t|
  {
    if |t| > 0 {
      var m := |t| - 1;
      AbsDiffSumZeroIff(counts[..m], t[..m]);
      assert counts == counts[..m] + [counts[m]] && t == t[..m] + [t[m]];
      if counts == t {
        assert counts[..m] == t[..m];
      }
    }
  }

  lemma {:induction false} AbsDiffSumAtMostSums(counts: seq<int>, t: seq<int>)
    requires |counts| == |t|
    requires forall i :: 0 <= i < |t| ==> counts[i] >= 0 && t[i] >= 0
    ensures AbsDiffSum(counts, t) <= Sum(counts) + Sum(t)
    decreases |t|
  {
    if |t| > 0 {
      var m := |t| - 1;
      AbsDiffSumAtMostSums(counts[..m], t[..m]);
    }
  }

  /** The score never exceeds `2l`, and reaches it exactly when the counts hit the
      targets. */
  lemma ScoreAtMostTwiceSteps(l: int, t: seq<int>, counts: seq<int>)
    requires |counts| == |t|
    ensures ScoreOf(l, t, counts) <= 2 * l
    ensures ScoreOf(l, t, counts) == 2 * l <==> counts == t
  {
    AbsDiffSumZeroIff(counts, t);
  }

  /** With non-negative counts summing to `l`, the score is at least `l - Σt`. */
  lemma ScoreAtLeast(l: int, t: seq<int>, counts: seq<int>)
    requires |counts| == |t|
    requires forall i :: 0 <= i < |t| ==> counts[i] >= 0 && t[i] >= 0
    requires Sum(counts) == l
    ensures ScoreOf(l, t, counts) >= l - Sum(t)
  {
    AbsDiffSumAtMostSums(counts, t);
  }

  /** Bounds of the judge's score for any valid table: between `l - Σt` and `2l`, equal
      to `2l` exactly when every visit count matches its target, and non-negative when
      the targets sum to `l`. */
  lemma JudgeScoreBounds(input: Input, out: seq<Pair>)
    requires WellFormed(input) && ValidTable(input.n, out)
    requires input.l > 0 ==> input.n > 0
    ensures input.l - Sum(input.t) <= FinalScore(input, out) <= 2 * input.l
    ensures FinalScore(input, out) == 2 * input.l <==> Run(out, input.l).counts == input.t
    ensures Sum(input.t) == input.l ==> FinalScore(input, out) >= 0
  {
    var counts := Run(out, input.l).counts;
    RunConservation(out, input.l);
    CountsNonNegative(out, input.l);
    ScoreAtMostTwiceSteps(input.l, input.t, counts);
    ScoreAtLeast(input.l, input.t, counts);
  }

  /** The worked example's replay: four rounds over three positions. */
  lemma ExampleRun(out: seq<Pair>)
    requires out == [(1, 2), (0, 2), (0, 1)]
    ensures Run(out, 4) == SimState([2, 1, 1], 0)
  {
    var s0 := Run(out, 0);
    assert s0.counts == [0, 0, 0];
    var s1 := Step(out, s0);
    assert s1 == SimState([1, 0, 0], 1) && Run(out, 1) == s1;
    var s2 := Step(out, s1);
    assert s2 == SimState([1, 1, 0], 0) && Run(out, 2) == s2;
    var s3 := Step(out, s2);
    assert s3 == SimState([2, 1, 0], 2) && Run(out, 3) == s3;
    var s4 := Step(out, s3);
    assert s4 == SimState([2, 1, 1], 0) && Run(out, 4) == s4;
  }

  /** The worked example's penalty. */
  lemma ExamplePenalty(c: seq<int>, t: seq<int>)
    requires c == [2, 1, 1] && t == [1, 2, 1]
    ensures AbsDiffSum(c, t) == 2
  {
    assert AbsDiffSum(c[..1], t[..1]) == 1;
    assert AbsDiffSum(c[..2], t[..2]) == 2;
  }

  /** The worked example: three positions, four rounds. */
  lemma WorkedExample()
    ensures var out: seq<Pair> := [(1, 2), (0, 2), (0, 1)];
            Run(out, 4) == SimState([2, 1, 1], 0)
            && FinalScore(Input(3, 4, [1, 2, 1]), out) == 6
  {
    var out: seq<Pair> := [(1, 2), (0, 2), (0, 1)];
    ExampleRun(out);
    ExamplePenalty([2, 1, 1], [1, 2, 1]);
  }
}
