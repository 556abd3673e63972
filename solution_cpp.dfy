/** `main.cpp`: `calc`, `prepare_tuika`, the two search phases and their bookkeeping.
    The random draws of a round, already past the 95% selection scans, are parameters;
    the time limit is the number of rounds the second phase is given. */
module SolutionCpp {
  import opened Arith
  import opened Text
  import opened SolutionSpec

  /** `calc(G, sab)`: fill `work_count`, then `sab`, and return `Σ |sab[i]|`. */
  method Calc(t: seq<int>, g: array<Slots>, sab: array<int>) returns (score: int)
    requires g.Length == |t| && sab.Length == |t| && InRange(|t|, g[..])
    modifies sab
    ensures sab[..] == Sabun(g[..], t)
    ensures score == CalcScore(g[..], t)
  {
    var n := g.Length;
    ghost var gs := g[..];
    var workCount := new int[n](_ => 0);
    for i := 0 to n
      invariant forall j :: 0 <= j < n ==> workCount[j] == SlotLoad(gs, t, j, i)
    {
      workCount[g[i].0] := workCount[g[i].0] + t[i];
      workCount[g[i].1] := workCount[g[i].1] + t[i];
    }
    forall j | 0 <= j < n ensures workCount[j] == WorkCount(gs, t)[j] {
      WorkCountIsSlotLoad(gs, t, n, j);
    }
    ghost var diffs := Sabun(gs, t);
    score := 0;
    for i := 0 to n
      invariant workCount[..] == WorkCount(gs, t)
      invariant sab[..i] == diffs[..i]
      invariant score == AbsSum(diffs[..i])
    {
      var diff := workCount[i] - t[i] * 2;
      assert diffs[i] == diff;
      assert diffs[..i + 1][..i] == diffs[..i];
      score := score + Abs(diff);
      sab[i] := diff;
    }
    assert sab[..] == sab[..n] && diffs == diffs[..n];
  }

  /** The index of the largest entry among the first `m`, by `std::pair`'s order. */
  function MaxAt(pq: seq<(int, int)>, m: nat): (r: nat)
    requires 0 < m <= |pq|
    ensures r < m && forall j :: 0 <= j < m ==> LexLe(pq[j], pq[r])
  {
    if m == 1 then 0
    else
      var r := MaxAt(pq, m - 1);
      if LexLe(pq[r], pq[m - 1]) then m - 1 else r
  }

  /** `prepare_tuika`: push `(T[i], i)` for every node, then `N` times pop the top,
      append its index and push it back 2500 lower. The queue always holds one entry
      per node, kept here at that node's position. */
  method PrepareTuika(t: seq<int>) returns (tuika: seq<int>)
    requires |t| > 0
    ensures CppPicks(t, tuika)
  {
    var n := |t|;
    var pq := seq(n, i requires 0 <= i < n => (t[i], i));
    tuika := [];
    for k := 0 to n
      invariant |tuika| == k && |pq| == n
      invariant forall i :: 0 <= i < n ==> pq[i] == (Priority(t, tuika, i), i)
      invariant forall m :: 0 <= m < k ==> CppTop(t, tuika[..m], tuika[m])
    {
      var top := pq[MaxAt(pq, n)];
      var val, idx := top.0, top.1;
      assert CppTop(t, tuika, idx);
      forall i | 0 <= i < n ensures Priority(t, tuika + [idx], i) == Priority(t, tuika, i) - (if i == idx then 2500 else 0) {
        CountSnoc(tuika, idx, i);
      }
      assert forall m :: 0 <= m <= k ==> (tuika + [idx])[..m] == tuika[..m];
      tuika := tuika + [idx];
      pq := pq[idx := (val - 2500, idx)];
    }
  }

  /** The rewrite of both phases: scan `i = (cut + k) % N`, and in the first node that
      names `hataraki`, `.first` before `.second`, write `sabori`. `t_i`, `t_j`,
      `t_old` record where, and the value overwritten; they stay `-1` when nothing
      matched. */
  method ApplyMove(ans: array<Slots>, hataraki: int, sabori: int, cut: nat)
    returns (found: bool, ti: int, tj: int, told: int)
    requires cut < ans.Length
    modifies ans
    ensures ans[..] == Move(old(ans[..]), hataraki, sabori, cut)
    ensures found <==> MoveTarget(old(ans[..]), hataraki, cut).Some?
    ensures found ==> ti >= 0 && tj >= 0 && (ti, tj) == MoveTarget(old(ans[..]), hataraki, cut).value
                      && told == hataraki
    ensures !found ==> ti == -1 && tj == -1 && told == -1
  {
    var n := ans.Length;
    ghost var g := ans[..];
    ti, tj, told := -1, -1, -1;
    found := false;
    for k := 0 to n
      invariant ans[..] == g && !found && ti == -1 && tj == -1 && told == -1
      invariant FirstMatch(g, hataraki, cut, 0) == FirstMatch(g, hataraki, cut, k)
    {
      var i := (cut + k) % n;
      ScanNodeIsMod(n, cut, k);
      if ans[i].0 == hataraki {
        MoveTargetAt(g, hataraki, cut, k);
        ti, tj, told := i, 0, ans[i].0;
        ans[i] := (sabori, ans[i].1);
        found := true;
      } else if ans[i].1 == hataraki {
        MoveTargetAt(g, hataraki, cut, k);
        ti, tj, told := i, 1, ans[i].1;
        ans[i] := (ans[i].0, sabori);
        found := true;
      } else {
        FirstMatchSkip(g, hataraki, cut, k);
      }
      if found {
        return;
      }
    }
    MoveTargetNone(g, hataraki, cut);
  }

  // ---------------------------------------------------------------------------------
  // The two phases on values: what each driver loop leaves behind, round by round
  // ---------------------------------------------------------------------------------

  /** Phase 1 on one table `g0`: each round records the table if it beats the record,
      then rewrites one slot. Yields the table and the record after the first `k`
      rounds of `ds`. */
  function Phase1Rounds(t: seq<int>, g0: seq<Slots>, b0: Best, ds: seq<Draw>, k: nat): (r: (seq<Slots>, Best))
    requires |t| == |g0| > 0 && InRange(|g0|, g0) && AllFit(|g0|, ds) && k <= |ds|
    requires Scored(|g0|, t, b0)
    ensures InRange(|g0|, r.0) && Scored(|g0|, t, r.1) && r.1.score <= b0.score
  {
    if k == 0 then (g0, b0)
    else
      var (g, b) := Phase1Rounds(t, g0, b0, ds, k - 1);
      var d := ds[k - 1];
      MoveInRange(g, d.hataraki, d.sabori, d.cut);
      (Move(g, d.hataraki, d.sabori, d.cut), RecordBest(b, g, t))
  }

  /** Round `k` of `Phase1Rounds` records the table the rounds before it left, then
      rewrites it. */
  lemma RoundsNext(t: seq<int>, g0: seq<Slots>, b0: Best, ds: seq<Draw>, k: nat)
    requires |t| == |g0| > 0 && InRange(|g0|, g0) && AllFit(|g0|, ds) && k < |ds|
    requires Scored(|g0|, t, b0)
    ensures var (g, b) := Phase1Rounds(t, g0, b0, ds, k);
            var d := ds[k];
            Phase1Rounds(t, g0, b0, ds, k + 1) == (Move(g, d.hataraki, d.sabori, d.cut), RecordBest(b, g, t))
  {
  }

  /** `generate_initial_solution` on values, after the first `k` tables: table `sana`
      is built by `InitialGraph` and run through the rounds `draws[sana]`; the record
      carries over from table to table. */
  function Phase1(t: seq<int>, tuika: seq<int>, draws: seq<seq<Draw>>, b0: Best, k: nat): (r: Best)
    requires |t| > 0 && |tuika| == |t| && forall k :: 0 <= k < |t| ==> 0 <= tuika[k] < |t|
    requires forall s :: 0 <= s < |draws| ==> AllFit(|t|, draws[s])
    requires Scored(|t|, t, b0) && k <= |draws|
    ensures Scored(|t|, t, r) && r.score <= b0.score
  {
    if k == 0 then b0
    else
      var b := Phase1(t, tuika, draws, b0, k - 1);
      InitialGraphInRange(|t|, tuika, k - 1);
      var ds := draws[k - 1];
      Phase1Rounds(t, InitialGraph(|t|, tuika, k - 1), b, ds, |ds|).1
  }

  /** One round of `run_local_search` on the table: the rewrite is kept when a slot
      matched and `improved ^ noise`, else undone. */
  function Phase2Step(t: seq<int>, g: seq<Slots>, d: Draw): (r: seq<Slots>)
    requires |t| == |g| > 0 && InRange(|g|, g) && DrawFits(|g|, d)
    ensures InRange(|g|, r)
  {
    MoveInRange(g, d.hataraki, d.sabori, d.cut);
    var moved := Move(g, d.hataraki, d.sabori, d.cut);
    if MoveTarget(g, d.hataraki, d.cut).Some? && CppAccept(CalcScore(g, t), CalcScore(moved, t), d.noise)
    then moved else g
  }

  /** `run_local_search` on values, after the first `k` rounds: each round records the
      current table, then takes one step. Yields the current table and the record. */
  function Phase2(t: seq<int>, g0: seq<Slots>, b0: Best, ds: seq<Draw>, k: nat): (r: (seq<Slots>, Best))
    requires |t| == |g0| > 0 && InRange(|g0|, g0) && AllFit(|g0|, ds) && k <= |ds|
    requires Scored(|g0|, t, b0)
    ensures InRange(|g0|, r.0) && Scored(|g0|, t, r.1) && r.1.score <= b0.score
  {
    if k == 0 then (g0, b0)
    else
      var (g, b) := Phase2(t, g0, b0, ds, k - 1);
      (Phase2Step(t, g, ds[k - 1]), RecordBest(b, g, t))
  }

  /** Round `k` of `Phase2` records the current table, then takes one step. */
  lemma Phase2Next(t: seq<int>, g0: seq<Slots>, b0: Best, ds: seq<Draw>, k: nat)
    requires |t| == |g0| > 0 && InRange(|g0|, g0) && AllFit(|g0|, ds) && k < |ds|
    requires Scored(|g0|, t, b0)
    ensures var (g, b) := Phase2(t, g0, b0, ds, k);
            Phase2(t, g0, b0, ds, k + 1) == (Phase2Step(t, g, ds[k]), RecordBest(b, g, t))
  {
  }

  /** What `main` prints: `final_ans` after both phases, the second starting from a
      copy of the first phase's record. */
  function Printed(t: seq<int>, tuika: seq<int>, phase1: seq<seq<Draw>>, phase2: seq<Draw>): (r: seq<Slots>)
    requires |t| > 0 && CppPicks(t, tuika)
    requires forall s :: 0 <= s < |phase1| ==> AllFit(|t|, phase1[s])
    requires AllFit(|t|, phase2)
    ensures InRange(|t|, r)
  {
    CppPicksInRange(t, tuika);
    var b1 := Phase1(t, tuika, phase1, InitialBest(|t|), |phase1|);
    Phase2(t, b1.table, b1, phase2, |phase2|).1.table
  }

  /** The state `generate_initial_solution` and `run_local_search` update through
      references: the best table so far (a copy, as `final_ans = ans` copies a vector)
      and its score. `N`, `T` and `tuika` are the globals. */
  class Search {
    const n: nat
    const t: seq<int>
    const tuika: seq<int>
    var finalAns: seq<Slots>
    var idealScore: int

    /** `ideal_score` is `calc(final_ans)`, or both still hold their initial values. */
    predicate Valid()
      reads this
    {
      n > 0 && |t| == n && |tuika| == n
      && (forall k :: 0 <= k < n ==> 0 <= tuika[k] < n)
      && InRange(n, finalAns)
      && (idealScore == CalcScore(finalAns, t)
          || (idealScore == INITIAL_IDEAL && finalAns == DefaultAns(n)))
    }

    /** `final_ans[i] = {(i + 1) % N, (i + 2) % N}; ideal_score = 1e14;`. */
    constructor (t: seq<int>, tuika: seq<int>)
      requires |t| > 0 && |tuika| == |t| && forall k :: 0 <= k < |t| ==> 0 <= tuika[k] < |t|
      ensures Valid() && this.t == t && this.tuika == tuika && n == |t|
      ensures finalAns == DefaultAns(|t|) && idealScore == INITIAL_IDEAL
    {
      n := |t|;
      this.t := t;
      this.tuika := tuika;
      finalAns := DefaultAns(|t|);
      idealScore := INITIAL_IDEAL;
    }

    /** `if (sc < ideal_score) { final_ans = ans; ideal_score = sc; }`. */
    method Record(ans: array<Slots>, sc: int)
      requires Valid() && InRange(n, ans[..]) && sc == CalcScore(ans[..], t)
      modifies this
      ensures Valid()
      ensures if sc < old(idealScore) then finalAns == ans[..] && idealScore == sc
              else finalAns == old(finalAns) && idealScore == old(idealScore)
    {
      if sc < idealScore {
        finalAns := ans[..];
        idealScore := sc;
      }
    }

    /** The table of round `sana`: `u = (i + sana + 1) % N`, `idx = (i - sana) % N`
        with a negative C++ remainder moved up by `N`, `v = tuika[idx]`. */
    method BuildGraph(sana: nat) returns (ans: array<Slots>)
      requires Valid()
      ensures fresh(ans) && ans[..] == InitialGraph(n, tuika, sana)
      ensures InRange(n, ans[..])
    {
      ghost var g := InitialGraph(n, tuika, sana);
      ans := new Slots[n](_ => (0, 0));
      for i := 0 to n
        invariant forall j :: 0 <= j < i ==> ans[j] == g[j]
      {
        var u := (i + sana + 1) % n;
        var idx := CppRem(i - sana, n);
        if idx < 0 {
          idx := idx + n;
        }
        assert idx == CppIndex(i, sana, n);
        CppIndexIsFloorMod(i, sana, n);
        var v := tuika[idx];
        assert (u, v) == g[i];
        ans[i] := (u, v);
      }
      assert ans[..] == g;
      InitialGraphInRange(n, tuika, sana);
    }

    /** The body of `for (int iter ...)`: `calc`, keep the table if it is the best so
        far, then rewrite one slot. */
    method Phase1Round(ans: array<Slots>, sab: array<int>, d: Draw)
      requires Valid() && sab.Length == n && InRange(n, ans[..]) && DrawFits(n, d)
      modifies this, ans, sab
      ensures Valid() && InRange(n, ans[..])
      ensures ans[..] == Move(old(ans[..]), d.hataraki, d.sabori, d.cut)
      ensures Best(finalAns, idealScore) == RecordBest(old(Best(finalAns, idealScore)), old(ans[..]), t)
    {
      ghost var before := ans[..];
      var sc := Calc(t, ans, sab);
      Record(ans, sc);
      var _, _, _, _ := ApplyMove(ans, d.hataraki, d.sabori, d.cut);
      MoveInRange(before, d.hataraki, d.sabori, d.cut);
    }

    /** The inner loop of `generate_initial_solution`: 1000 rounds on the table `ans`
        of round `sana`. */
    method TableRounds(ans: array<Slots>, sab: array<int>, ds: seq<Draw>)
      requires Valid() && sab.Length == n && InRange(n, ans[..]) && AllFit(n, ds)
      modifies this, ans, sab
      ensures Valid()
      ensures (ans[..], Best(finalAns, idealScore))
              == Phase1Rounds(t, old(ans[..]), old(Best(finalAns, idealScore)), ds, |ds|)
    {
      ghost var g0, b0 := ans[..], Best(finalAns, idealScore);
      for iter := 0 to |ds|
        invariant Valid() && InRange(n, ans[..])
        invariant (ans[..], Best(finalAns, idealScore)) == Phase1Rounds(t, g0, b0, ds, iter)
      {
        Phase1Round(ans, sab, ds[iter]);
        RoundsNext(t, g0, b0, ds, iter);
      }
    }

    /** `generate_initial_solution`: 80 tables, 1000 rounds each. */
    method InitialSolution(draws: seq<seq<Draw>>) returns (result: seq<Slots>)
      requires Valid()
      requires |draws| == PHASE1_GRAPHS
      requires forall s :: 0 <= s < |draws| ==> |draws[s]| == PHASE1_ROUNDS
      requires forall s :: 0 <= s < |draws| ==> AllFit(n, draws[s])
      modifies this
      ensures Valid() && result == finalAns
      ensures Best(finalAns, idealScore) == Phase1(t, tuika, draws, old(Best(finalAns, idealScore)), |draws|)
      ensures InRange(n, finalAns) && idealScore <= old(idealScore)
    {
      ghost var b0 := Best(finalAns, idealScore);
      var sab := new int[n];
      for sana := 0 to PHASE1_GRAPHS
        invariant Valid()
        invariant Best(finalAns, idealScore) == Phase1(t, tuika, draws, b0, sana)
      {
        var ans := BuildGraph(sana);
        TableRounds(ans, sab, draws[sana]);
      }
      result := finalAns;
    }

    /** One round of `run_local_search` after the best-so-far check: rewrite a slot;
        if one matched, keep the new table when `improved ^ noise`, else write
        `t_old` back. `sc` and `sab` stay the score and difference vector of `ans`. */
    method LocalSearchRound(ans: array<Slots>, sab: array<int>, sc: int, d: Draw)
      returns (sab': array<int>, sc': int)
      requires Valid() && DrawFits(n, d) && sab.Length == n
      requires InRange(n, ans[..]) && sc == CalcScore(ans[..], t) && sab[..] == Sabun(ans[..], t)
      modifies ans
      ensures InRange(n, ans[..]) && sab'.Length == n
      ensures sc' == CalcScore(ans[..], t) && sab'[..] == Sabun(ans[..], t)
      ensures var moved := Move(old(ans[..]), d.hataraki, d.sabori, d.cut);
              ans[..] == if MoveTarget(old(ans[..]), d.hataraki, d.cut).Some?
                            && CppAccept(sc, CalcScore(moved, t), d.noise)
                         then moved else old(ans[..])
    {
      ghost var before := ans[..];
      var found, ti, tj, told := ApplyMove(ans, d.hataraki, d.sabori, d.cut);
      MoveInRange(before, d.hataraki, d.sabori, d.cut);
      if !found {
        return sab, sc;
      }
      var newSab := new int[n];
      var newSc := Calc(t, ans, newSab);
      var improved := sc > newSc;
      var noise := d.noise >= 95;
      if improved != noise {
        return newSab, newSc;
      }
      MoveUndo(before, d.hataraki, d.sabori, d.cut);
      if tj == 0 {
        ans[ti] := (told, ans[ti].1);
      } else {
        ans[ti] := (ans[ti].0, told);
      }
      assert ans[..] == before;
      return sab, sc;
    }

    /** The body of the `while (true)` loop: keep the table if it is the best so far,
        then try one rewrite. */
    method Phase2Round(ans: array<Slots>, sab: array<int>, sc: int, d: Draw)
      returns (sab': array<int>, sc': int)
      requires Valid() && DrawFits(n, d) && sab.Length == n
      requires InRange(n, ans[..]) && sc == CalcScore(ans[..], t) && sab[..] == Sabun(ans[..], t)
      modifies this, ans
      ensures Valid() && InRange(n, ans[..]) && sab'.Length == n
      ensures sc' == CalcScore(ans[..], t) && sab'[..] == Sabun(ans[..], t)
      ensures ans[..] == Phase2Step(t, old(ans[..]), d)
      ensures Best(finalAns, idealScore) == RecordBest(old(Best(finalAns, idealScore)), old(ans[..]), t)
    {
      Record(ans, sc);
      sab', sc' := LocalSearchRound(ans, sab, sc, d);
    }

    /** `run_local_search`: one round per draw, until the time limit. */
    method LocalSearch(ans: array<Slots>, draws: seq<Draw>)
      requires Valid() && InRange(n, ans[..]) && AllFit(n, draws)
      modifies this, ans
      ensures Valid()
      ensures (ans[..], Best(finalAns, idealScore))
              == Phase2(t, old(ans[..]), old(Best(finalAns, idealScore)), draws, |draws|)
      ensures InRange(n, ans[..]) && InRange(n, finalAns) && idealScore <= old(idealScore)
    {
      ghost var g0, b0 := ans[..], Best(finalAns, idealScore);
      var sab := new int[n];
      var sc := Calc(t, ans, sab);
      for r := 0 to |draws|
        invariant Valid() && InRange(n, ans[..]) && sab.Length == n
        invariant sc == CalcScore(ans[..], t) && sab[..] == Sabun(ans[..], t)
        invariant (ans[..], Best(finalAns, idealScore)) == Phase2(t, g0, b0, draws, r)
      {
        sab, sc := Phase2Round(ans, sab, sc, draws[r]);
        Phase2Next(t, g0, b0, draws, r);
      }
    }
  }

  /** `main`: build `tuika`, run both phases, and print `final_ans`. The table printed
      is `Printed` of the draws, for the one `tuika` the targets determine. */
  method Solve(t: seq<int>, phase1: seq<seq<Draw>>, phase2: seq<Draw>) returns (out: seq<Slots>)
    requires |t| > 0
    requires |phase1| == PHASE1_GRAPHS
    requires forall s :: 0 <= s < |phase1| ==> |phase1[s]| == PHASE1_ROUNDS
    requires forall s :: 0 <= s < |phase1| ==> AllFit(|t|, phase1[s])
    requires AllFit(|t|, phase2)
    ensures InRange(|t|, out)
    ensures forall tuika :: CppPicks(t, tuika) ==> out == Printed(t, tuika, phase1, phase2)
  {
    var tuika := PrepareTuika(t);
    CppPicksInRange(t, tuika);
    var search := new Search(t, tuika);
    var _ := search.InitialSolution(phase1);
    var best := search.finalAns;
    var current := new Slots[|t|](i requires 0 <= i < |t| => best[i]);
    assert current[..] == best;
    search.LocalSearch(current, phase2);
    out := search.finalAns;
    forall other | CppPicks(t, other) ensures out == Printed(t, other, phase1, phase2) {
      CppPicksUnique(t, tuika, other);
    }
  }
}
