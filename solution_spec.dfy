/** What the two contestant solutions compute, as values: the load estimate `calc`, the
    single-slot rewrite and its undo, the initial tables, the acceptance tests and the
    order in which `tuika` picks targets. `main.cpp` and `main.py` are proved against
    these definitions. */
module SolutionSpec {
  import opened Arith
  import opened Text

  /** One node's two successors, `(first, second)`. */
  type Slots = (int, int)

  /** `n` nodes, every successor a node. */
  predicate InRange(n: int, g: seq<Slots>)
  {
    |g| == n && forall i :: 0 <= i < |g| ==> 0 <= g[i].0 < n && 0 <= g[i].1 < n
  }

  // ---------------------------------------------------------------------------------
  // calc
  // ---------------------------------------------------------------------------------

  /** `work_count` after the first `k` rounds of `calc`'s first loop: round `i` adds
      `T[i]` at `G[i].first`, then at `G[i].second`. */
  function WorkCountUpTo(g: seq<Slots>, t: seq<int>, k: nat): (w: seq<int>)
    requires InRange(|g|, g) && |t| == |g| && k <= |g|
    ensures |w| == |g|
  {
    if k == 0 then Zeros(|g|)
    else
      var w := WorkCountUpTo(g, t, k - 1);
      var w1 := w[g[k - 1].0 := w[g[k - 1].0] + t[k - 1]];
      w1[g[k - 1].1 := w1[g[k - 1].1] + t[k - 1]]
  }

  function WorkCount(g: seq<Slots>, t: seq<int>): (w: seq<int>)
    requires InRange(|g|, g) && |t| == |g|
    ensures |w| == |g|
  {
    WorkCountUpTo(g, t, |g|)
  }

  /** The load of node `j` from the first `k` nodes, slot by slot: `T[i]` for each slot
      of node `i` that names `j`, so twice when both do. */
  function SlotLoad(g: seq<Slots>, t: seq<int>, j: int, k: nat): int
    requires |t| == |g| && k <= |g|
  {
    if k == 0 then 0
    else
      SlotLoad(g, t, j, k - 1)
      + (if g[k - 1].0 == j then t[k - 1] else 0)
      + (if g[k - 1].1 == j then t[k - 1] else 0)
  }

  /** The loop computes, for every node, its slot-by-slot load. */
  lemma {:induction false} WorkCountIsSlotLoad(g: seq<Slots>, t: seq<int>, k: nat, j: nat)
    requires InRange(|g|, g) && |t| == |g| && k <= |g| && j < |g|
    ensures WorkCountUpTo(g, t, k)[j] == SlotLoad(g, t, j, k)
    decreases k
  {
    if k > 0 {
      WorkCountIsSlotLoad(g, t, k - 1, j);
    }
  }

  /** Every node's target is counted once per slot: `Σ work_count = 2 Σ T`. */
  lemma {:induction false} WorkCountSum(g: seq<Slots>, t: seq<int>, k: nat)
    requires InRange(|g|, g) && |t| == |g| && k <= |g|
    ensures Sum(WorkCountUpTo(g, t, k)) == 2 * Sum(t[..k])
    decreases k
  {
    if k > 0 {
      var w := WorkCountUpTo(g, t, k - 1);
      var w1 := w[g[k - 1].0 := w[g[k - 1].0] + t[k - 1]];
      var w2 := w1[g[k - 1].1 := w1[g[k - 1].1] + t[k - 1]];
      assert WorkCountUpTo(g, t, k) == w2;
      WorkCountSum(g, t, k - 1);
      SumUpdate(w, g[k - 1].0, w[g[k - 1].0] + t[k - 1]);
      SumUpdate(w1, g[k - 1].1, w1[g[k - 1].1] + t[k - 1]);
      assert t[..k][..k - 1] == t[..k - 1];
      assert Sum(t[..k]) == Sum(t[..k - 1]) + t[k - 1];
    }
  }

  /** `sab[i] = work_count[i] - 2 T[i]`: how much more work node `i` gets than twice its
      target. */
  function Sabun(g: seq<Slots>, t: seq<int>): (s: seq<int>)
    requires InRange(|g|, g) && |t| == |g|
    ensures |s| == |g|
  {
    var w := WorkCount(g, t);
    seq(|g|, i requires 0 <= i < |g| => w[i] - 2 * t[i])
  }

  /** `Σ |s[i]|`. */
  function AbsSum(s: seq<int>): (r: int)
    ensures r >= 0
  {
    if |s| == 0 then 0 else AbsSum(s[..|s| - 1]) + Abs(s[|s| - 1])
  }

  /** The value `calc` returns. */
  function CalcScore(g: seq<Slots>, t: seq<int>): (r: int)
    requires InRange(|g|, g) && |t| == |g|
    ensures r >= 0
  {
    AbsSum(Sabun(g, t))
  }

  lemma {:induction false} SumOfDifference(w: seq<int>, t: seq<int>, k: nat)
    requires |w| == |t| && k <= |t|
    ensures Sum(seq(k, i requires 0 <= i < k => w[i] - 2 * t[i])) == Sum(w[..k]) - 2 * Sum(t[..k])
    decreases k
  {
    if k > 0 {
      var d := seq(k, i requires 0 <= i < k => w[i] - 2 * t[i]);
      SumOfDifference(w, t, k - 1);
      assert d[..k - 1] == seq(k - 1, i requires 0 <= i < k - 1 => w[i] - 2 * t[i]);
      assert w[..k][..k - 1] == w[..k - 1] && t[..k][..k - 1] == t[..k - 1];
    }
  }

  /** The differences cancel out: `Σ sab = 0`. */
  lemma SabunSumsToZero(g: seq<Slots>, t: seq<int>)
    requires InRange(|g|, g) && |t| == |g|
    ensures Sum(Sabun(g, t)) == 0
  {
    var w := WorkCount(g, t);
    WorkCountSum(g, t, |g|);
    SumOfDifference(w, t, |g|);
    assert w[..|g|] == w && t[..|g|] == t;
  }

  lemma {:induction false} AbsSumZeroIff(s: seq<int>)
    ensures AbsSum(s) == 0 <==> forall i :: 0 <= i < |s| ==> s[i] == 0
    decreases |s|
  {
    if |s| > 0 {
      var front := s[..|s| - 1];
      AbsSumZeroIff(front);
      assert forall i :: 0 <= i < |front| ==> front[i] == s[i];
    }
  }

  /** `calc` is 0 exactly when every node gets exactly twice its
      target. */
  lemma CalcScoreZeroIff(g: seq<Slots>, t: seq<int>)
    requires InRange(|g|, g) && |t| == |g|
    ensures CalcScore(g, t) == 0 <==> forall i :: 0 <= i < |g| ==> Sabun(g, t)[i] == 0
  {
    AbsSumZeroIff(Sabun(g, t));
  }

  // ---------------------------------------------------------------------------------
  // The single-slot rewrite and its undo
  // ---------------------------------------------------------------------------------

  /** A node one of whose slots names `h`. */
  predicate Names(p: Slots, h: int)
  {
    p.0 == h || p.1 == h
  }

  /** Step `k` of a scan that starts at node `cut`: node `(cut + k) % n`. */
  function ScanNode(n: nat, cut: nat, k: nat): (i: nat)
    requires cut < n && k < n
    ensures i < n
  {
    if cut + k < n then cut + k else cut + k - n
  }

  /** The scan of the rewrite: steps `k, k+1, …, n-1`; the first step whose node
      names `h`. */
  function FirstMatch(g: seq<Slots>, h: int, cut: nat, k: nat): (r: Option<nat>)
    requires cut < |g|
    ensures r.Some? ==> k <= r.value < |g| && Names(g[ScanNode(|g|, cut, r.value)], h)
    ensures r.Some? ==> forall m :: k <= m < r.value ==> !Names(g[ScanNode(|g|, cut, m)], h)
    ensures r.None? ==> forall m :: k <= m < |g| ==> !Names(g[ScanNode(|g|, cut, m)], h)
    decreases |g| - k
  {
    if k >= |g| then None
    else if Names(g[ScanNode(|g|, cut, k)], h) then Some(k)
    else FirstMatch(g, h, cut, k + 1)
  }

  /** Slot `j` of a node (0 is `.first`, 1 is `.second`). */
  function Slot(p: Slots, j: nat): int
  {
    if j == 0 then p.0 else p.1
  }

  /** The node with slot `j` set to `v`. */
  function SetSlot(p: Slots, j: nat, v: int): (q: Slots)
    ensures Slot(q, j) == v
    ensures j == 0 ==> q.1 == p.1
    ensures j != 0 ==> q.0 == p.0
  {
    if j == 0 then (v, p.1) else (p.0, v)
  }

  /** Where the rewrite writes: the node of the first matching step and its first slot
      naming `h`, `.first` before `.second`. */
  function MoveTarget(g: seq<Slots>, h: int, cut: nat): (r: Option<(nat, nat)>)
    requires cut < |g|
    ensures r.Some? ==> r.value.0 < |g| && r.value.1 <= 1 && Slot(g[r.value.0], r.value.1) == h
  {
    match FirstMatch(g, h, cut, 0)
    case None => None
    case Some(k) =>
      var i := ScanNode(|g|, cut, k);
      Some((i, if g[i].0 == h then 0 else 1))
  }

  /** The rewrite: the first slot, in scan order, that names `h` now names `s`. */
  function Move(g: seq<Slots>, h: int, s: int, cut: nat): (r: seq<Slots>)
    requires cut < |g|
    ensures |r| == |g|
  {
    match MoveTarget(g, h, cut)
    case None => g
    case Some((i, j)) => g[i := SetSlot(g[i], j, s)]
  }

  /** A scan step past a node that does not name `h` leaves the first match alone. */
  lemma FirstMatchSkip(g: seq<Slots>, h: int, cut: nat, k: nat)
    requires cut < |g| && k < |g| && !Names(g[ScanNode(|g|, cut, k)], h)
    ensures FirstMatch(g, h, cut, k) == FirstMatch(g, h, cut, k + 1)
  {
  }

  /** The scan has reached step `k` without a match, and step `k` names `h`. */
  lemma MoveTargetAt(g: seq<Slots>, h: int, cut: nat, k: nat)
    requires cut < |g| && k < |g| && FirstMatch(g, h, cut, 0) == FirstMatch(g, h, cut, k)
    requires Names(g[ScanNode(|g|, cut, k)], h)
    ensures var i := ScanNode(|g|, cut, k);
            MoveTarget(g, h, cut) == Some((i, if g[i].0 == h then 0 else 1))
  {
  }

  /** The scan has run out without a match. */
  lemma MoveTargetNone(g: seq<Slots>, h: int, cut: nat)
    requires cut < |g| && FirstMatch(g, h, cut, 0) == FirstMatch(g, h, cut, |g|)
    ensures MoveTarget(g, h, cut).None?
  {
  }

  /** Scanning from `cut` reaches every node. */
  lemma ScanCovers(n: nat, cut: nat, i: nat)
    requires cut < n && i < n
    ensures var m := if i >= cut then i - cut else i + n - cut;
            m < n && ScanNode(n, cut, m) == i
  {
  }

  lemma {:induction false} MulAtLeast(n: int, d: int)
    requires n > 0 && d >= 1
    ensures n * d >= n
    decreases d
  {
    if d > 1 {
      MulAtLeast(n, d - 1);
    }
  }

  /** Euclidean division is unique: the remainder in `[0, n)` determines `a % n`. */
  lemma ModUnique(a: int, n: int, q: int, r: int)
    requires n > 0 && 0 <= r < n && a == q * n + r
    ensures a % n == r && a / n == q
  {
    var q0, r0 := a / n, a % n;
    assert (q - q0) * n == r0 - r;
    if q - q0 >= 1 {
      MulAtLeast(n, q - q0);
    } else if q0 - q >= 1 {
      MulAtLeast(n, q0 - q);
    }
  }

  /** The C++ step `(cut + k) % N` of the scan. */
  lemma ScanNodeIsMod(n: nat, cut: nat, k: nat)
    requires cut < n && k < n
    ensures (cut + k) % n == ScanNode(n, cut, k)
  {
    if cut + k < n {
      ModUnique(cut + k, n, 0, cut + k);
    } else {
      ModUnique(cut + k, n, 1, cut + k - n);
    }
  }

  /** The rewrite changes exactly one slot, the first naming `h` in scan order, and
      leaves the table alone when no slot names `h`. */
  lemma MoveChangesOneSlot(g: seq<Slots>, h: int, s: int, cut: nat)
    requires cut < |g|
    ensures MoveTarget(g, h, cut).None? ==>
              Move(g, h, s, cut) == g && forall i :: 0 <= i < |g| ==> !Names(g[i], h)
    ensures MoveTarget(g, h, cut).Some? ==>
              var (i, j) := MoveTarget(g, h, cut).value;
              var r := Move(g, h, s, cut);
              i < |g| && j <= 1 && Slot(g[i], j) == h && (j == 1 ==> g[i].0 != h)
              && |r| == |g| && Slot(r[i], j) == s && Slot(r[i], 1 - j) == Slot(g[i], 1 - j)
              && forall i' :: 0 <= i' < |g| && i' != i ==> r[i'] == g[i']
  {
    if MoveTarget(g, h, cut).None? {
      forall i | 0 <= i < |g| ensures !Names(g[i], h) {
        ScanCovers(|g|, cut, i);
      }
    }
  }

  /** A rewrite to a node keeps every successor a node. */
  lemma MoveInRange(g: seq<Slots>, h: int, s: int, cut: nat)
    requires InRange(|g|, g) && cut < |g| && 0 <= s < |g|
    ensures InRange(|g|, Move(g, h, s, cut))
  {
  }

  /** Writing the saved value back into the rewritten slot restores the table. */
  lemma MoveUndo(g: seq<Slots>, h: int, s: int, cut: nat)
    requires cut < |g| && MoveTarget(g, h, cut).Some?
    ensures var (i, j) := MoveTarget(g, h, cut).value;
            var r := Move(g, h, s, cut);
            i < |r| && r[i := SetSlot(r[i], j, Slot(g[i], j))] == g
  {
    var (i, j) := MoveTarget(g, h, cut).value;
    var r := Move(g, h, s, cut);
    assert r[i := SetSlot(r[i], j, Slot(g[i], j))][i] == g[i];
  }

  /** Python's scan order `list(range(cut, N)) + list(range(cut))`. */
  function Jun(n: nat, cut: nat): (r: seq<nat>)
    requires cut <= n
    ensures |r| == n
  {
    seq(n - cut, k requires 0 <= k < n - cut => cut + k) + seq(cut, k requires 0 <= k < cut => k)
  }

  /** It visits the nodes in the order the C++ scan does. */
  lemma JunIsScanOrder(n: nat, cut: nat)
    requires cut < n
    ensures forall k :: 0 <= k < n ==> Jun(n, cut)[k] == ScanNode(n, cut, k)
  {
  }

  // ---------------------------------------------------------------------------------
  // Initial tables
  // ---------------------------------------------------------------------------------

  /** `final_ans[i] = ((i + 1) % N, (i + 2) % N)`. */
  function DefaultAns(n: nat): (g: seq<Slots>)
    requires n > 0
    ensures InRange(n, g)
  {
    seq(n, i requires 0 <= i < n => ((i + 1) % n, (i + 2) % n))
  }

  /** C++ `a % n`: truncated toward zero, so negative for negative `a`. */
  function CppRem(a: int, n: int): (r: int)
    requires n > 0
    ensures -n < r < n && (a >= 0 ==> r >= 0)
  {
    if a >= 0 then a % n else -((-a) % n)
  }

  /** `idx = (i - sana) % N; if (idx < 0) idx += N;`. */
  function CppIndex(i: int, sana: int, n: int): int
    requires n > 0
  {
    var idx := CppRem(i - sana, n);
    if idx < 0 then idx + n else idx
  }

  /** The C++ correction gives Python's non-negative remainder. */
  lemma CppIndexIsFloorMod(i: int, sana: int, n: int)
    requires n > 0
    ensures CppIndex(i, sana, n) == (i - sana) % n
    ensures 0 <= CppIndex(i, sana, n) < n
  {
    var a := i - sana;
    if a < 0 {
      var q, m := (-a) / n, (-a) % n;
      assert -a == q * n + m;
      if m == 0 {
        ModUnique(a, n, -q, 0);
      } else {
        ModUnique(a, n, -q - 1, n - m);
      }
    }
  }

  /** The table of round `sana` of the first phase: node `i` goes to `(i + sana + 1) % N`
      and to `tuika[(i - sana) mod N]`. */
  function InitialGraph(n: nat, tuika: seq<int>, sana: nat): (g: seq<Slots>)
    requires n > 0 && |tuika| == n
    ensures |g| == n
  {
    seq(n, i requires 0 <= i < n => ((i + sana + 1) % n, tuika[(i - sana) % n]))
  }

  lemma InitialGraphInRange(n: nat, tuika: seq<int>, sana: nat)
    requires n > 0 && |tuika| == n && forall k :: 0 <= k < n ==> 0 <= tuika[k] < n
    ensures InRange(n, InitialGraph(n, tuika, sana))
  {
  }

  // ---------------------------------------------------------------------------------
  // Acceptance
  // ---------------------------------------------------------------------------------

  /** `improved ^ noise` in `main.cpp`: an improvement is kept, a worsening dropped,
      unless the noise draw (one in twenty) flips the decision. */
  function CppAccept(sc: int, newSc: int, noiseDraw: int): bool
  {
    (sc > newSc) != (noiseDraw >= 95)
  }

  /** Python's `^` on non-negative integers. */
  function Xor(a: nat, b: nat): nat
    decreases a + b
  {
    if a == 0 && b == 0 then 0
    else 2 * Xor(a / 2, b / 2) + (if a % 2 != b % 2 then 1 else 0)
  }

  /** `sc > new_sc ^ r >= 95` in `main.py`: `^` binds tighter than the comparisons,
      which chain, so this is `sc > x and x >= 95` with `x = new_sc ^ r`. */
  function PyAccept(sc: int, newSc: nat, r: nat): bool
  {
    var x := Xor(newSc, r);
    sc > x && x >= 95
  }

  lemma {:induction false} XorZero(a: nat)
    ensures Xor(a, 0) == a
    decreases a
  {
    if a > 0 {
      XorZero(a / 2);
    }
  }

  /** With a zero draw, Python accepts only improvements to a score of at least 95. */
  lemma PyAcceptZeroDraw(sc: int, newSc: nat)
    ensures PyAccept(sc, newSc, 0) <==> sc > newSc && newSc >= 95
  {
    XorZero(newSc);
  }

  /** The two tests disagree: from 200 to 50 with a zero draw, C++ keeps the
      improvement and Python drops it. */
  lemma AcceptDisagree()
    ensures CppAccept(200, 50, 0) && !PyAccept(200, 50, 0)
  {
    PyAcceptZeroDraw(200, 50);
  }

  /** `a ^ b` lies between `a - b` and `a + b`. */
  lemma {:induction false} XorBounds(a: nat, b: nat)
    ensures a - b <= Xor(a, b) <= a + b
    decreases a + b
  {
    if a != 0 || b != 0 {
      XorBounds(a / 2, b / 2);
    }
  }

  /** What Python's test lets through, with a draw below 100: never a table worse by
      100 or more, and never a new score below `95 - r`, so a perfect table is kept only
      on a draw of at least 95. */
  lemma PyAcceptNearScore(sc: int, newSc: nat, r: nat)
    requires r < 100
    ensures PyAccept(sc, newSc, r) ==> sc > newSc - 100
    ensures newSc + r < 95 ==> !PyAccept(sc, newSc, r)
  {
    XorBounds(newSc, r);
  }

  // ---------------------------------------------------------------------------------
  // The order of `tuika`
  // ---------------------------------------------------------------------------------

  /** How often `x` occurs in `s`. */
  function Count(s: seq<int>, x: int): (c: nat)
    ensures c <= |s|
  {
    if |s| == 0 then 0 else Count(s[..|s| - 1], x) + (if s[|s| - 1] == x then 1 else 0)
  }

  lemma CountSnoc(s: seq<int>, x: int, y: int)
    ensures Count(s + [x], y) == Count(s, y) + (if x == y then 1 else 0)
  {
    assert (s + [x])[..|s|] == s;
  }

  /** Node `i`'s priority once `chosen` have been picked: its target, less 2500 per
      earlier pick of `i`. */
  function Priority(t: seq<int>, chosen: seq<int>, i: nat): int
    requires i < |t|
  {
    t[i] - 2500 * Count(chosen, i)
  }

  /** `(a0, a1) <= (b0, b1)` lexicographically, as `std::pair` and Python tuples order. */
  predicate LexLe(a: (int, int), b: (int, int))
  {
    a.0 < b.0 || (a.0 == b.0 && a.1 <= b.1)
  }

  /** `p` is the max of `(priority, index)` over all nodes, so ties go to the larger
      index: `main.cpp`'s pop. */
  predicate CppTop(t: seq<int>, chosen: seq<int>, p: int)
  {
    0 <= p < |t|
    && forall j :: 0 <= j < |t| ==> LexLe((Priority(t, chosen, j), j), (Priority(t, chosen, p), p))
  }

  /** `p` is the min of `(-priority, index)`, so ties go to the smaller index:
      `main.py`'s pop. */
  predicate PyTop(t: seq<int>, chosen: seq<int>, p: int)
  {
    0 <= p < |t|
    && forall j :: 0 <= j < |t| ==> LexLe((-Priority(t, chosen, p), p), (-Priority(t, chosen, j), j))
  }

  /** `main.cpp`'s `tuika`: one pop per node, each the top of what is left. */
  predicate CppPicks(t: seq<int>, tuika: seq<int>)
  {
    |tuika| == |t| && forall k :: 0 <= k < |tuika| ==> CppTop(t, tuika[..k], tuika[k])
  }

  predicate PyPicks(t: seq<int>, tuika: seq<int>)
  {
    |tuika| == |t| && forall k :: 0 <= k < |tuika| ==> PyTop(t, tuika[..k], tuika[k])
  }

  /** On equal priority the C++ pop never takes the smaller index and the Python pop
      never the larger, whatever has been picked before. */
  lemma TuikaTieBreak(t: seq<int>, chosen: seq<int>, i: nat, j: nat, p: int)
    requires i < j < |t| && Priority(t, chosen, i) == Priority(t, chosen, j)
    ensures CppTop(t, chosen, p) ==> p != i
    ensures PyTop(t, chosen, p) ==> p != j
  {
    if CppTop(t, chosen, p) {
      assert LexLe((Priority(t, chosen, j), j), (Priority(t, chosen, p), p));
    }
    if PyTop(t, chosen, p) {
      assert LexLe((-Priority(t, chosen, p), p), (-Priority(t, chosen, i), i));
    }
  }

  /** Two equal targets: C++ picks node 1 first, Python node 0. */
  lemma TuikaTieBreakExample(cpp: seq<int>, py: seq<int>)
    requires CppPicks([5, 5], cpp) && PyPicks([5, 5], py)
    ensures cpp == [1, 0] && py == [0, 1]
  {
    var t := [5, 5];
    assert CppTop(t, cpp[..0], cpp[0]) && CppTop(t, cpp[..1], cpp[1]);
    TuikaTieBreak(t, cpp[..0], 0, 1, cpp[0]);
    assert cpp[0] == 1;
    assert cpp[..1] == [1];
    assert LexLe((Priority(t, cpp[..1], 0), 0), (Priority(t, cpp[..1], cpp[1]), cpp[1]));
    assert PyTop(t, py[..0], py[0]) && PyTop(t, py[..1], py[1]);
    TuikaTieBreak(t, py[..0], 0, 1, py[0]);
    assert py[0] == 0;
    assert py[..1] == [0];
    assert LexLe((-Priority(t, py[..1], py[1]), py[1]), (-Priority(t, py[..1], 1), 1));
  }

  /** Entries never tie, their indices being distinct, so the C++ queue top is unique. */
  lemma CppTopUnique(t: seq<int>, chosen: seq<int>, p: int, q: int)
    requires CppTop(t, chosen, p) && CppTop(t, chosen, q)
    ensures p == q
  {
    assert LexLe((Priority(t, chosen, p), p), (Priority(t, chosen, q), q));
    assert LexLe((Priority(t, chosen, q), q), (Priority(t, chosen, p), p));
  }

  /** The Python heap minimum is unique for the same reason. */
  lemma PyTopUnique(t: seq<int>, chosen: seq<int>, p: int, q: int)
    requires PyTop(t, chosen, p) && PyTop(t, chosen, q)
    ensures p == q
  {
    assert LexLe((-Priority(t, chosen, p), p), (-Priority(t, chosen, q), q));
    assert LexLe((-Priority(t, chosen, q), q), (-Priority(t, chosen, p), p));
  }

  /** Two pick sequences that agree before step `k` and both pick the queue top agree
      up to `k`. */
  lemma {:induction false} CppPicksAgree(t: seq<int>, a: seq<int>, b: seq<int>, k: nat)
    requires CppPicks(t, a) && CppPicks(t, b) && k <= |a|
    ensures a[..k] == b[..k]
  {
    if k > 0 {
      CppPicksAgree(t, a, b, k - 1);
      assert a[..k - 1] == b[..k - 1];
      CppTopUnique(t, a[..k - 1], a[k - 1], b[k - 1]);
      assert a[..k] == a[..k - 1] + [a[k - 1]] && b[..k] == b[..k - 1] + [b[k - 1]];
    }
  }

  lemma {:induction false} PyPicksAgree(t: seq<int>, a: seq<int>, b: seq<int>, k: nat)
    requires PyPicks(t, a) && PyPicks(t, b) && k <= |a|
    ensures a[..k] == b[..k]
  {
    if k > 0 {
      PyPicksAgree(t, a, b, k - 1);
      assert a[..k - 1] == b[..k - 1];
      PyTopUnique(t, a[..k - 1], a[k - 1], b[k - 1]);
      assert a[..k] == a[..k - 1] + [a[k - 1]] && b[..k] == b[..k - 1] + [b[k - 1]];
    }
  }

  /** `tuika` is determined by the targets, in each program. */
  lemma CppPicksUnique(t: seq<int>, a: seq<int>, b: seq<int>)
    requires CppPicks(t, a) && CppPicks(t, b)
    ensures a == b
  {
    CppPicksAgree(t, a, b, |a|);
    assert a == a[..|a|] && b == b[..|b|];
  }

  lemma PyPicksUnique(t: seq<int>, a: seq<int>, b: seq<int>)
    requires PyPicks(t, a) && PyPicks(t, b)
    ensures a == b
  {
    PyPicksAgree(t, a, b, |a|);
    assert a == a[..|a|] && b == b[..|b|];
  }

  /** Every pick is a node. */
  lemma CppPicksInRange(t: seq<int>, tuika: seq<int>)
    requires CppPicks(t, tuika)
    ensures forall k :: 0 <= k < |tuika| ==> 0 <= tuika[k] < |t|
  {
    assert forall k :: 0 <= k < |tuika| ==> CppTop(t, tuika[..k], tuika[k]);
  }

  lemma PyPicksInRange(t: seq<int>, tuika: seq<int>)
    requires PyPicks(t, tuika)
    ensures forall k :: 0 <= k < |tuika| ==> 0 <= tuika[k] < |t|
  {
    assert forall k :: 0 <= k < |tuika| ==> PyTop(t, tuika[..k], tuika[k]);
  }

  // ---------------------------------------------------------------------------------
  // The search
  // ---------------------------------------------------------------------------------

  /** The best score before anything is recorded: `1e14` in `main.cpp`, `10**14` in
      `main.py`. */
  const INITIAL_IDEAL: int := 100_000_000_000_000

  /** The first phase builds 80 tables and runs 1000 rounds on each. */
  const PHASE1_GRAPHS: nat := 80
  const PHASE1_ROUNDS: nat := 1000

  /** What one round draws: the node to relieve (`hataraki`) and the node to load
      (`sabori`) as the selection scan leaves them, the `cut` of the rewrite's scan,
      and the noise draw in `[0, 100)` of the second phase's acceptance test. */
  datatype Draw = Draw(hataraki: int, sabori: int, cut: int, noise: int)

  predicate DrawFits(n: int, d: Draw)
  {
    0 <= d.hataraki < n && 0 <= d.sabori < n && 0 <= d.cut < n && 0 <= d.noise < 100
  }

  /** Every draw of a phase fits the table. */
  predicate AllFit(n: int, ds: seq<Draw>)
  {
    forall r :: 0 <= r < |ds| ==> DrawFits(n, ds[r])
  }

  /** The recorded best table and its score: `final_ans`/`ideal_score` in C++,
      `final`/`ideal` in Python while they still name a table of their own. */
  datatype Best = Best(table: seq<Slots>, score: int)

  /** `if sc < ideal: final = ans; ideal = sc`, with `sc = calc(ans)`: a strictly
      better table replaces the record, anything else leaves it. */
  function RecordBest(b: Best, g: seq<Slots>, t: seq<int>): (r: Best)
    requires InRange(|g|, g) && |t| == |g|
    ensures r.score <= b.score
    ensures r == b || (r.table == g && r.score == CalcScore(g, t) && r.score < b.score)
  {
    var sc := CalcScore(g, t);
    if sc < b.score then Best(g, sc) else b
  }

  /** The record before anything is scored. */
  function InitialBest(n: nat): (b: Best)
    requires n > 0
    ensures InRange(n, b.table) && b.score == INITIAL_IDEAL
  {
    Best(DefaultAns(n), INITIAL_IDEAL)
  }

  /** The record is the initial one, or a table in range with its own score. */
  predicate Scored(n: nat, t: seq<int>, b: Best)
  {
    n > 0 && |t| == n && InRange(n, b.table)
    && (b.score == CalcScore(b.table, t) || b == InitialBest(n))
  }
}
