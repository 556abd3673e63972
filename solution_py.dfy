/** `main.py`: the same search as `main.cpp`, written as a script over module globals.
    Lists are shared by reference, so `final = ans` makes `final` follow every later
    rewrite of `ans`; the acceptance test reads `sc > (new_sc ^ r) >= 95`; the second
    phase runs a fixed 2000 rounds. The random draws are parameters. */
module SolutionPy {
  import opened Arith
  import opened Text
  import opened SolutionSpec

  /** `for _ in range(2000)` of the second phase. */
  const PHASE2_ROUNDS: nat := 2000

  /** `calc(G)`: `work_count`, the score `Σ |work_count[i] - 2 T[i]|`, and `sabun`. */
  method Calc(t: seq<int>, g: array<Slots>) returns (score: int, sabun: seq<int>)
    requires g.Length == |t| && InRange(|t|, g[..])
    ensures score == CalcScore(g[..], t)
    ensures sabun == Sabun(g[..], t)
  {
    var n := g.Length;
    ghost var gs := g[..];
    var workCount := new int[n](_ => 0);
    for i := 0 to n
      invariant forall j :: 0 <= j < n ==> workCount[j] == SlotLoad(gs, t, j, i)
    {
      var (s1, s2) := g[i];
      workCount[s1] := workCount[s1] + t[i];
      workCount[s2] := workCount[s2] + t[i];
    }
    forall j | 0 <= j < n ensures workCount[j] == WorkCount(gs, t)[j] {
      WorkCountIsSlotLoad(gs, t, n, j);
    }
    ghost var diffs := Sabun(gs, t);
    score := 0;
    for i := 0 to n
      invariant score == AbsSum(diffs[..i])
    {
      assert diffs[..i + 1][..i] == diffs[..i];
      score := score + Abs(workCount[i] - t[i] * 2);
    }
    assert diffs == diffs[..n];
    sabun := seq(n, i requires 0 <= i < n reads workCount => workCount[i] - t[i] * 2);
  }

  /** The index of the smallest entry among the first `m`, by tuple order. */
  function MinAt(pq: seq<(int, int)>, m: nat): (r: nat)
    requires 0 < m <= |pq|
    ensures r < m && forall j :: 0 <= j < m ==> LexLe(pq[r], pq[j])
  {
    if m == 1 then 0
    else
      var r := MinAt(pq, m - 1);
      if LexLe(pq[r], pq[m - 1]) then r else m - 1
  }

  /** `TT = [(-T[i], i)]; heapify(TT)`, then `N` times `heappop`, append the index and
      `heappush` it back 2500 higher. The heap always holds one entry per node, kept
      here at that node's position. */
  method PrepareTuika(t: seq<int>) returns (tuika: seq<int>)
    requires |t| > 0
    ensures PyPicks(t, tuika)
  {
    var n := |t|;
    var tt := seq(n, i requires 0 <= i < n => (-t[i], i));
    tuika := [];
    for k := 0 to n
      invariant |tuika| == k && |tt| == n
      invariant forall i :: 0 <= i < n ==> tt[i] == (-Priority(t, tuika, i), i)
      invariant forall m :: 0 <= m < k ==> PyTop(t, tuika[..m], tuika[m])
    {
      var (p, q) := tt[MinAt(tt, n)];
      assert PyTop(t, tuika, q);
      forall i | 0 <= i < n ensures Priority(t, tuika + [q], i) == Priority(t, tuika, i) - (if i == q then 2500 else 0) {
        CountSnoc(tuika, q, i);
      }
      assert forall m :: 0 <= m <= k ==> (tuika + [q])[..m] == tuika[..m];
      tuika := tuika + [q];
      tt := tt[q := (p + 2500, q)];
    }
  }

  /** The rewrite: `for i in jun: for j in range(2)`, and in the first slot naming
      `hataraki` write `sabori`. `temp` is `(i, j, ans[i][j])`, read before the write,
      or `(0, 0, ans[0][0])` when nothing matched, which writing back leaves alone. */
  method Rewrite(ans: array<Slots>, hataraki: int, sabori: int, cut: nat)
    returns (temp: (int, int, int))
    requires cut < ans.Length
    modifies ans
    ensures ans[..] == Move(old(ans[..]), hataraki, sabori, cut)
    ensures match MoveTarget(old(ans[..]), hataraki, cut)
            case Some((i, j)) => temp == (i, j, hataraki)
            case None => temp == (0, 0, old(ans[0].0))
  {
    var n := ans.Length;
    ghost var g := ans[..];
    var jun := Jun(n, cut);
    JunIsScanOrder(n, cut);
    temp := (0, 0, ans[0].0);
    var flag := 0;
    for k := 0 to n
      invariant ans[..] == g && flag == 0 && temp == (0, 0, g[0].0)
      invariant FirstMatch(g, hataraki, cut, 0) == FirstMatch(g, hataraki, cut, k)
    {
      var i := jun[k];
      for j := 0 to 2
        invariant ans[..] == g && flag == 0 && temp == (0, 0, g[0].0)
        invariant forall j' :: 0 <= j' < j ==> Slot(g[i], j') != hataraki
      {
        if Slot(ans[i], j) == hataraki {
          assert ans[i] == g[i] && (j == 1 ==> Slot(g[i], 0) != hataraki);
          assert i == ScanNode(n, cut, k) && j == (if g[i].0 == hataraki then 0 else 1);
          MoveTargetAt(g, hataraki, cut, k);
          temp := (i, j, Slot(ans[i], j));
          if j == 0 {
            ans[i] := (sabori, ans[i].1);
          } else {
            ans[i] := (ans[i].0, sabori);
          }
          assert ans[..] == g[i := SetSlot(g[i], j, sabori)];
          flag := 1;
          break;
        }
      }
      if flag == 1 {
        break;
      }
      assert i == ScanNode(n, cut, k) && Slot(g[i], 0) != hataraki && Slot(g[i], 1) != hataraki;
      FirstMatchSkip(g, hataraki, cut, k);
    }
    if flag == 0 {
      MoveTargetNone(g, hataraki, cut);
    }
  }

  // ---------------------------------------------------------------------------------
  // The two phases on values: what the script's loops leave behind, round by round
  // ---------------------------------------------------------------------------------

  /** The state of phase 1 on one table: the list `ans`, the contents of the list
      `final` names, `ideal`, and whether `final` is `ans` itself. */
  datatype Run = Run(ans: seq<Slots>, final: seq<Slots>, ideal: int, shared: bool)

  /** Phase 1 on one table `g0`: each round takes `ans` as `final` if it beats `ideal`,
      then rewrites one slot, which `final` sees once it is `ans`. */
  function Phase1Rounds(t: seq<int>, g0: seq<Slots>, fin0: seq<Slots>, ideal0: int, ds: seq<Draw>): (r: Run)
    requires |t| == |g0| > 0 && InRange(|g0|, g0) && InRange(|g0|, fin0) && AllFit(|g0|, ds)
    ensures InRange(|g0|, r.ans) && InRange(|g0|, r.final) && r.ideal <= ideal0
    ensures r.shared ==> r.final == r.ans
    ensures !r.shared ==> r.final == fin0 && r.ideal == ideal0
    decreases |ds|
  {
    if |ds| == 0 then Run(g0, fin0, ideal0, false)
    else
      var p := Phase1Rounds(t, g0, fin0, ideal0, ds[..|ds| - 1]);
      var d := ds[|ds| - 1];
      var sc := CalcScore(p.ans, t);
      var shared := p.shared || sc < p.ideal;
      MoveInRange(p.ans, d.hataraki, d.sabori, d.cut);
      var moved := Move(p.ans, d.hataraki, d.sabori, d.cut);
      Run(moved, if shared then moved else p.final, if sc < p.ideal then sc else p.ideal, shared)
  }

  /** One more round of `Phase1Rounds`. */
  lemma RoundsSnoc(t: seq<int>, g0: seq<Slots>, fin0: seq<Slots>, ideal0: int, ds: seq<Draw>, k: nat)
    requires |t| == |g0| > 0 && InRange(|g0|, g0) && InRange(|g0|, fin0) && AllFit(|g0|, ds) && k < |ds|
    ensures var p := Phase1Rounds(t, g0, fin0, ideal0, ds[..k]);
            var d := ds[k];
            var sc := CalcScore(p.ans, t);
            var shared := p.shared || sc < p.ideal;
            var moved := Move(p.ans, d.hataraki, d.sabori, d.cut);
            Phase1Rounds(t, g0, fin0, ideal0, ds[..k + 1])
            == Run(moved, if shared then moved else p.final, if sc < p.ideal then sc else p.ideal, shared)
  {
    assert ds[..k + 1][..k] == ds[..k];
  }

  /** `for sana in range(80)` on values: the contents of `final` and `ideal` after the
      tables `0 .. |draws| - 1`. */
  function Phase1(t: seq<int>, tuika: seq<int>, draws: seq<seq<Draw>>, fin0: seq<Slots>, ideal0: int)
    : (r: (seq<Slots>, int))
    requires |t| > 0 && |tuika| == |t| && forall k :: 0 <= k < |t| ==> 0 <= tuika[k] < |t|
    requires forall s :: 0 <= s < |draws| ==> AllFit(|t|, draws[s])
    requires InRange(|t|, fin0)
    ensures InRange(|t|, r.0) && r.1 <= ideal0
    decreases |draws|
  {
    if |draws| == 0 then (fin0, ideal0)
    else
      var (fin, ideal) := Phase1(t, tuika, draws[..|draws| - 1], fin0, ideal0);
      var sana := |draws| - 1;
      InitialGraphInRange(|t|, tuika, sana);
      var p := Phase1Rounds(t, InitialGraph(|t|, tuika, sana), fin, ideal, draws[sana]);
      (p.final, p.ideal)
  }

  /** One more table of `Phase1`. */
  lemma Phase1Snoc(t: seq<int>, tuika: seq<int>, draws: seq<seq<Draw>>, fin0: seq<Slots>, ideal0: int, k: nat)
    requires |t| > 0 && |tuika| == |t| && forall k :: 0 <= k < |t| ==> 0 <= tuika[k] < |t|
    requires forall s :: 0 <= s < |draws| ==> AllFit(|t|, draws[s])
    requires InRange(|t|, fin0) && k < |draws|
    ensures InRange(|t|, InitialGraph(|t|, tuika, k))
    ensures var (fin, ideal) := Phase1(t, tuika, draws[..k], fin0, ideal0);
            var p := Phase1Rounds(t, InitialGraph(|t|, tuika, k), fin, ideal, draws[k]);
            Phase1(t, tuika, draws[..k + 1], fin0, ideal0) == (p.final, p.ideal)
  {
    InitialGraphInRange(|t|, tuika, k);
    assert draws[..k + 1][..k] == draws[..k];
  }

  /** One round of the second phase on the table: the rewrite is kept when
      `sc > (new_sc ^ r) >= 95`, else undone. */
  function Phase2Step(t: seq<int>, g: seq<Slots>, d: Draw): (r: seq<Slots>)
    requires |t| == |g| > 0 && InRange(|g|, g) && DrawFits(|g|, d)
    ensures InRange(|g|, r)
  {
    MoveInRange(g, d.hataraki, d.sabori, d.cut);
    var moved := Move(g, d.hataraki, d.sabori, d.cut);
    if PyAccept(CalcScore(g, t), CalcScore(moved, t), d.noise) then moved else g
  }

  /** The second phase on values: the one list `ans`/`final`, and `ideal`. */
  function Phase2(t: seq<int>, g0: seq<Slots>, ideal0: int, ds: seq<Draw>): (r: (seq<Slots>, int))
    requires |t| == |g0| > 0 && InRange(|g0|, g0) && AllFit(|g0|, ds)
    ensures InRange(|g0|, r.0) && r.1 <= ideal0
    decreases |ds|
  {
    if |ds| == 0 then (g0, ideal0)
    else
      var (g, ideal) := Phase2(t, g0, ideal0, ds[..|ds| - 1]);
      var sc := CalcScore(g, t);
      (Phase2Step(t, g, ds[|ds| - 1]), if sc < ideal then sc else ideal)
  }

  /** One more round of `Phase2`. */
  lemma Phase2Snoc(t: seq<int>, g0: seq<Slots>, ideal0: int, ds: seq<Draw>, k: nat)
    requires |t| == |g0| > 0 && InRange(|g0|, g0) && AllFit(|g0|, ds) && k < |ds|
    ensures var (g, ideal) := Phase2(t, g0, ideal0, ds[..k]);
            var sc := CalcScore(g, t);
            Phase2(t, g0, ideal0, ds[..k + 1]) == (Phase2Step(t, g, ds[k]), if sc < ideal then sc else ideal)
  {
    assert ds[..k + 1][..k] == ds[..k];
  }

  /** Since `final` is `ans` throughout the second phase, `ideal` has no say in which
      table it ends on. */
  lemma {:induction false} Phase2IgnoresIdeal(t: seq<int>, g0: seq<Slots>, i1: int, i2: int, ds: seq<Draw>)
    requires |t| == |g0| > 0 && InRange(|g0|, g0) && AllFit(|g0|, ds)
    ensures Phase2(t, g0, i1, ds).0 == Phase2(t, g0, i2, ds).0
    decreases |ds|
  {
    if |ds| > 0 {
      Phase2IgnoresIdeal(t, g0, i1, i2, ds[..|ds| - 1]);
    }
  }

  /** What the script prints: `final` after both phases. */
  function Printed(t: seq<int>, tuika: seq<int>, phase1: seq<seq<Draw>>, phase2: seq<Draw>): (r: seq<Slots>)
    requires |t| > 0 && PyPicks(t, tuika)
    requires forall s :: 0 <= s < |phase1| ==> AllFit(|t|, phase1[s])
    requires AllFit(|t|, phase2)
    ensures InRange(|t|, r)
  {
    PyPicksInRange(t, tuika);
    var (fin, ideal) := Phase1(t, tuika, phase1, DefaultAns(|t|), INITIAL_IDEAL);
    Phase2(t, fin, ideal, phase2).0
  }

  /** `Printed` is the second phase run from where the first phase ends. */
  lemma PrintedIs(t: seq<int>, tuika: seq<int>, phase1: seq<seq<Draw>>, phase2: seq<Draw>,
                  after1: (seq<Slots>, int), out: seq<Slots>)
    requires |t| > 0 && PyPicks(t, tuika)
    requires forall s :: 0 <= s < |phase1| ==> AllFit(|t|, phase1[s])
    requires AllFit(|t|, phase2)
    requires after1 == Phase1(t, tuika, phase1, DefaultAns(|t|), INITIAL_IDEAL)
    requires out == Phase2(t, after1.0, after1.1, phase2).0
    ensures out == Printed(t, tuika, phase1, phase2)
  {
    PyPicksInRange(t, tuika);
  }

  /** The script's globals that outlive a round: `final` (a reference, shared with
      `ans` once `final = ans` has run) and `ideal`. `N`, `T` and `tuika` are fixed
      once read. */
  class Program {
    const n: nat
    const t: seq<int>
    const tuika: seq<int>
    var final: array<Slots>
    var ideal: int

    predicate Valid()
      reads this, final
    {
      n > 0 && |t| == n && |tuika| == n
      && (forall k :: 0 <= k < n ==> 0 <= tuika[k] < n)
      && final.Length == n && InRange(n, final[..])
    }

    /** `final = [((i+1)%N, (i+2)%N) ...]; ideal = 10**14`. */
    constructor (t: seq<int>, tuika: seq<int>)
      requires |t| > 0 && |tuika| == |t| && forall k :: 0 <= k < |t| ==> 0 <= tuika[k] < |t|
      ensures Valid() && this.t == t && this.tuika == tuika && n == |t|
      ensures fresh(final) && final[..] == DefaultAns(|t|) && ideal == INITIAL_IDEAL
    {
      n := |t|;
      this.t := t;
      this.tuika := tuika;
      var d := DefaultAns(|t|);
      final := new Slots[|t|](i requires 0 <= i < |t| => d[i]);
      ideal := INITIAL_IDEAL;
      new;
      assert final[..] == d;
    }

    /** One round of the first phase: score `ans`, take it as `final` (the list itself)
        if it beats `ideal`, then rewrite one slot. Once `final` is `ans`, the rewrite
        changes `final` as well. */
    method InitialRound(ans: array<Slots>, d: Draw)
      requires Valid() && ans.Length == n && InRange(n, ans[..]) && DrawFits(n, d)
      modifies this, ans
      ensures Valid() && InRange(n, ans[..])
      ensures ans[..] == Move(old(ans[..]), d.hataraki, d.sabori, d.cut)
      ensures var sc := CalcScore(old(ans[..]), t);
              if sc < old(ideal) then final == ans && ideal == sc
              else final == old(final) && ideal == old(ideal)
      ensures final[..] == if final == ans then ans[..] else old(final[..])
    {
      ghost var before := ans[..];
      var sc, sab := Calc(t, ans);
      if sc < ideal {
        final := ans;
        ideal := sc;
      }
      var _ := Rewrite(ans, d.hataraki, d.sabori, d.cut);
      MoveInRange(before, d.hataraki, d.sabori, d.cut);
    }

    /** The body of `for sana in range(80)`: a new list `ans`, then 1000 rounds on it. */
    method TableRounds(sana: nat, ds: seq<Draw>)
      requires Valid() && |ds| == PHASE1_ROUNDS && AllFit(n, ds)
      modifies this
      ensures Valid() && (final == old(final) || fresh(final))
      ensures var p := Phase1Rounds(t, InitialGraph(n, tuika, sana), old(final[..]), old(ideal), ds);
              final[..] == p.final && ideal == p.ideal
    {
      ghost var f0, i0 := final[..], ideal;
      var ans := new Slots[n](i requires 0 <= i < n => ((i + sana + 1) % n, tuika[(i - sana) % n]));
      ghost var g0 := ans[..];
      assert g0 == InitialGraph(n, tuika, sana);
      InitialGraphInRange(n, tuika, sana);
      for iter := 0 to PHASE1_ROUNDS
        invariant Valid() && InRange(n, ans[..])
        invariant final == old(final) || final == ans
        invariant var p := Phase1Rounds(t, g0, f0, i0, ds[..iter]);
                  ans[..] == p.ans && final[..] == p.final && ideal == p.ideal && (p.shared <==> final == ans)
      {
        RoundsSnoc(t, g0, f0, i0, ds, iter);
        InitialRound(ans, ds[iter]);
      }
      assert ds[..PHASE1_ROUNDS] == ds;
    }

    /** `for sana in range(80)`: a new list per table, 1000 rounds on each. */
    method InitialSolution(draws: seq<seq<Draw>>)
      requires Valid()
      requires |draws| == PHASE1_GRAPHS
      requires forall s :: 0 <= s < |draws| ==> |draws[s]| == PHASE1_ROUNDS
      requires forall s :: 0 <= s < |draws| ==> AllFit(n, draws[s])
      modifies this
      ensures Valid() && (final == old(final) || fresh(final))
      ensures (final[..], ideal) == Phase1(t, tuika, draws, old(final[..]), old(ideal))
      ensures InRange(n, final[..]) && ideal <= old(ideal)
    {
      ghost var f0, i0 := final[..], ideal;
      for sana := 0 to PHASE1_GRAPHS
        invariant Valid() && (final == old(final) || fresh(final))
        invariant (final[..], ideal) == Phase1(t, tuika, draws[..sana], f0, i0)
      {
        TableRounds(sana, draws[sana]);
        Phase1Snoc(t, tuika, draws, f0, i0, sana);
      }
      assert draws[..PHASE1_GRAPHS] == draws;
    }

    /** One round of the second phase, where `ans` is `final`: record, rewrite, and
        keep the rewrite when `sc > (new_sc ^ r) >= 95`, else write `temp` back. */
    method LocalSearchRound(ans: array<Slots>, sc: int, d: Draw) returns (sc': int)
      requires Valid() && ans == final && DrawFits(n, d) && sc == CalcScore(ans[..], t)
      modifies this, ans
      ensures Valid() && final == ans && final == old(final)
      ensures ideal == if sc < old(ideal) then sc else old(ideal)
      ensures var moved := Move(old(ans[..]), d.hataraki, d.sabori, d.cut);
              var accept := PyAccept(sc, CalcScore(moved, t), d.noise);
              ans[..] == (if accept then moved else old(ans[..]))
              && sc' == (if accept then CalcScore(moved, t) else sc)
      ensures sc' == CalcScore(ans[..], t)
    {
      if sc < ideal {
        final := ans;
        ideal := sc;
      }
      ghost var before := ans[..];
      var temp := Rewrite(ans, d.hataraki, d.sabori, d.cut);
      MoveInRange(before, d.hataraki, d.sabori, d.cut);
      var newSc, newSub := Calc(t, ans);
      if PyAccept(sc, newSc, d.noise) {
        return newSc;
      }
      var (i, j, saved) := temp;
      if MoveTarget(before, d.hataraki, d.cut).Some? {
        MoveUndo(before, d.hataraki, d.sabori, d.cut);
      }
      if j == 0 {
        ans[i] := (saved, ans[i].1);
      } else {
        ans[i] := (ans[i].0, saved);
      }
      assert ans[..] == before;
      return sc;
    }

    /** `ans = final`, then 2000 rounds on that one list. `sab` is computed once and
        never refreshed, since `new_sub` is dropped; the printed `final` is the table the
        rounds end on, and `sc` is its score. */
    method LocalSearch(draws: seq<Draw>) returns (sc: int, sab: seq<int>)
      requires Valid() && |draws| == PHASE2_ROUNDS && AllFit(n, draws)
      modifies this, final
      ensures Valid() && final == old(final)
      ensures (final[..], ideal) == Phase2(t, old(final[..]), old(ideal), draws)
      ensures InRange(n, final[..]) && ideal <= old(ideal)
      ensures sc == CalcScore(final[..], t)
      ensures sab == Sabun(old(final[..]), t)
    {
      ghost var g0, i0 := final[..], ideal;
      var ans := final;
      sc, sab := Calc(t, ans);
      for r := 0 to PHASE2_ROUNDS
        invariant Valid() && ans == final && final == old(final)
        invariant sc == CalcScore(ans[..], t)
        invariant (ans[..], ideal) == Phase2(t, g0, i0, draws[..r])
      {
        sc := LocalSearchRound(ans, sc, draws[r]);
        Phase2Snoc(t, g0, i0, draws, r);
      }
      assert draws[..PHASE2_ROUNDS] == draws;
    }
  }

  /** The script: `tuika`, both phases, and `print(*final[i])` for every node. The
      table printed is `Printed` of the draws, for the one `tuika` the targets
      determine. */
  method Solve(t: seq<int>, phase1: seq<seq<Draw>>, phase2: seq<Draw>) returns (out: seq<Slots>)
    requires |t| > 0
    requires |phase1| == PHASE1_GRAPHS
    requires forall s :: 0 <= s < |phase1| ==> |phase1[s]| == PHASE1_ROUNDS
    requires forall s :: 0 <= s < |phase1| ==> AllFit(|t|, phase1[s])
    requires |phase2| == PHASE2_ROUNDS && AllFit(|t|, phase2)
    ensures InRange(|t|, out)
    ensures forall tuika :: PyPicks(t, tuika) ==> out == Printed(t, tuika, phase1, phase2)
  {
    var tuika := PrepareTuika(t);
    PyPicksInRange(t, tuika);
    var program := new Program(t, tuika);
    program.InitialSolution(phase1);
    ghost var after1 := (program.final[..], program.ideal);
    var _, _ := program.LocalSearch(phase2);
    out := program.final[..];
    PrintedIs(t, tuika, phase1, phase2, after1, out);
    forall other | PyPicks(t, other) ensures out == Printed(t, other, phase1, phase2) {
      PyPicksUnique(t, tuika, other);
    }
  }
}
