/** Decomposing a number of scrolls into triangular piles.

    `PileSearch` is the branch-and-bound search: `best` is the incumbent and `picked`
    the stack of bases chosen so far. `DecomposeCapped` is the greedy variant that
    never builds a pile wider than `maxBase`. */
module TriangularPiles {
  import opened Wrappers

  // ---------------------------------------------------------------- arithmetic

  /** The scrolls in a pile: `base` in the bottom row, one fewer in each row above. */
  function Tri(base: nat): nat {
    if base == 0 then 0 else Tri(base - 1) + base
  }

  /** The closed form the program computes. */
  lemma {:induction false} TriClosedForm(base: nat)
    ensures Tri(base) == base * (base + 1) / 2
  {
    if base > 0 {
      TriClosedForm(base - 1);
      assert base * (base + 1) == (base - 1) * base + 2 * base;
    }
  }

  lemma {:induction false} TriMonotone(low: nat, high: nat)
    requires low <= high
    ensures Tri(low) + (high - low) <= Tri(high)
    ensures 1 <= low ==> low <= Tri(low)
    decreases high
  {
    if low < high {
      TriMonotone(low, high - 1);
    } else if 1 < low {
      TriMonotone(low - 1, low - 1);
    }
  }

  /** The number of scrolls held by piles of these bases. */
  function Total(bases: seq<nat>): nat {
    if bases == [] then 0 else Tri(bases[0]) + Total(bases[1..])
  }

  lemma {:induction false} TotalConcat(a: seq<nat>, b: seq<nat>)
    ensures Total(a + b) == Total(a) + Total(b)
  {
    if a == [] {
      assert a + b == b;
    } else {
      TotalConcat(a[1..], b);
      assert (a + b)[1..] == a[1..] + b;
    }
  }

  ghost predicate Positive(bases: seq<nat>) {
    forall i :: 0 <= i < |bases| ==> 1 <= bases[i]
  }

  predicate NonIncreasing(cap: nat, bases: seq<nat>) {
    bases == [] || (1 <= bases[0] <= cap && NonIncreasing(bases[0], bases[1..]))
  }

  ghost predicate Completes(bases: seq<nat>, remaining: nat, cap: nat) {
    NonIncreasing(cap, bases) && Total(bases) == remaining
  }

  // ------------------------------------------- the order the incumbent is judged by

  /** Python's `a > b` on lists. */
  predicate LexGreater(a: seq<nat>, b: seq<nat>) {
    a != [] && (b == [] || a[0] > b[0] || (a[0] == b[0] && LexGreater(a[1..], b[1..])))
  }

  predicate Improves(candidate: seq<nat>, best: Option<seq<nat>>) {
    best.None?
    || |candidate| < |best.value|
    || (|candidate| == |best.value| && LexGreater(candidate, best.value))
  }

  predicate NotWorse(a: seq<nat>, b: seq<nat>) {
    !Improves(b, Some(a))
  }

  lemma {:induction false} LexTransitive(a: seq<nat>, b: seq<nat>, c: seq<nat>)
    requires |a| == |b| == |c| && !LexGreater(b, a) && !LexGreater(c, b)
    ensures !LexGreater(c, a)
  {
    if a != [] && a[0] == b[0] == c[0] {
      LexTransitive(a[1..], b[1..], c[1..]);
    }
  }

  lemma {:induction false} LexAntisymmetric(a: seq<nat>, b: seq<nat>)
    requires |a| == |b| && !LexGreater(a, b) && !LexGreater(b, a)
    ensures a == b
  {
    if a != [] {
      LexAntisymmetric(a[1..], b[1..]);
      assert a == [a[0]] + a[1..] && b == [b[0]] + b[1..];
    }
  }

  lemma {:induction false} LexAsymmetric(a: seq<nat>, b: seq<nat>)
    requires LexGreater(a, b)
    ensures !LexGreater(b, a)
  {
    if b != [] && a[0] == b[0] {
      LexAsymmetric(a[1..], b[1..]);
    }
  }

  lemma NotWorseTransitive(a: seq<nat>, b: seq<nat>, c: seq<nat>)
    requires NotWorse(a, b) && NotWorse(b, c)
    ensures NotWorse(a, c)
  {
    if |a| == |b| == |c| {
      LexTransitive(a, b, c);
    }
  }

  // ------------------------------------- sorting a decomposition never makes it worse

  function Insert(x: nat, sorted: seq<nat>): seq<nat> {
    if sorted == [] || x >= sorted[0] then [x] + sorted
    else [sorted[0]] + Insert(x, sorted[1..])
  }

  function SortDown(bases: seq<nat>): seq<nat> {
    if bases == [] then [] else Insert(bases[0], SortDown(bases[1..]))
  }

  lemma {:induction false} InsertFacts(x: nat, sorted: seq<nat>, cap: nat)
    requires 1 <= x <= cap && NonIncreasing(cap, sorted)
    ensures Completes(Insert(x, sorted), Tri(x) + Total(sorted), cap)
    ensures |Insert(x, sorted)| == |sorted| + 1
    ensures !LexGreater([x] + sorted, Insert(x, sorted))
  {
    if sorted == [] || x >= sorted[0] {
      assert ([x] + sorted)[1..] == sorted;
      LexReflexive([x] + sorted);
    } else {
      InsertFacts(x, sorted[1..], sorted[0]);
    }
  }

  lemma {:induction false} LexReflexive(a: seq<nat>)
    ensures !LexGreater(a, a)
  {
    if a != [] {
      LexReflexive(a[1..]);
    }
  }

  lemma {:induction false} SortDownFacts(bases: seq<nat>, cap: nat)
    requires forall i :: 0 <= i < |bases| ==> 1 <= bases[i] <= cap
    ensures Completes(SortDown(bases), Total(bases), cap)
    ensures |SortDown(bases)| == |bases|
    ensures !LexGreater(bases, SortDown(bases))
  {
    if bases != [] {
      var x, rest := bases[0], SortDown(bases[1..]);
      SortDownFacts(bases[1..], cap);
      InsertFacts(x, rest, cap);
      assert ([x] + rest)[1..] == rest;
      LexTransitive(SortDown(bases), [x] + rest, bases);
    }
  }

  lemma {:induction false} PartsFit(bases: seq<nat>, cap: nat)
    requires Positive(bases) && Total(bases) < Tri(cap + 1)
    ensures forall i :: 0 <= i < |bases| ==> 1 <= bases[i] <= cap
  {
    if bases != [] {
      if cap < bases[0] {
        TriMonotone(cap + 1, bases[0]);
      }
      PartsFit(bases[1..], cap);
    }
  }

  // ------------------------------------------------------------------ the search

  /** `r` decomposes `total`, is non-increasing, and no list of positive bases with the
      same total, in any order, is shorter or, at the same length, lexicographically
      greater. */
  ghost predicate Optimal(r: seq<nat>, total: nat) {
    && NonIncreasing(total, r)
    && Total(r) == total
    && forall d: seq<nat> :: Positive(d) && Total(d) == total ==> NotWorse(r, d)
  }

  lemma OptimalIsUnique(r: seq<nat>, s: seq<nat>, total: nat)
    requires Optimal(r, total) && Optimal(s, total)
    ensures r == s
  {
    NonIncreasingIsPositive(r, total);
    NonIncreasingIsPositive(s, total);
    assert NotWorse(r, s) && NotWorse(s, r);
    LexAntisymmetric(r, s);
  }

  lemma {:induction false} NonIncreasingIsPositive(bases: seq<nat>, cap: nat)
    requires NonIncreasing(cap, bases)
    ensures Positive(bases)
  {
    if bases != [] {
      NonIncreasingIsPositive(bases[1..], bases[0]);
    }
  }

  lemma {:induction false} NonIncreasingWeaken(bases: seq<nat>, total: nat, cap: nat)
    requires NonIncreasing(cap, bases) && Total(bases) <= total
    ensures NonIncreasing(total, bases)
  {
    if bases != [] {
      TriMonotone(bases[0], bases[0]);
    }
  }

  ghost predicate ExtendedBy(best: Option<seq<nat>>, picked: seq<nat>, remaining: nat, cap: nat) {
    exists c :: Completes(c, remaining, cap) && best == Some(picked + c)
  }

  ghost predicate Beats(best: Option<seq<nat>>, other: seq<nat>) {
    best.Some? && NotWorse(best.value, other)
  }

  lemma OnlyEmptyCompletesZero(cap: nat)
    ensures forall c :: Completes(c, 0, cap) ==> c == []
  {
    forall c: seq<nat> {:trigger Completes(c, 0, cap)} | Completes(c, 0, cap)
      ensures c == []
    {
    }
  }

  class PileSearch {
    const triangulars: seq<(nat, nat)>
    var best: Option<seq<nat>>
    var picked: seq<nat>

    constructor (triangulars: seq<(nat, nat)>)
      ensures this.triangulars == triangulars && best == None && picked == []
    {
      this.triangulars := triangulars;
      best, picked := None, [];
    }

    ghost predicate Table() {
      forall i :: 0 <= i < |triangulars| ==> triangulars[i] == (i + 1, Tri(i + 1))
    }

    /** One node of the search tree. The stack is restored, the incumbent only improves,
        it changes only to an extension of the stack, and when the call returns it is
        at least as good as every completion of the stack, pruned or not. */
    method Search(remaining: nat, startIndex: int)
      requires Table() && -1 <= startIndex < |triangulars|
      modifies this
      ensures picked == old(picked)
      ensures best == old(best) || ExtendedBy(best, picked, remaining, startIndex + 1)
      ensures old(best).Some? ==> Beats(best, old(best).value)
      ensures forall c :: Completes(c, remaining, startIndex + 1) ==> Beats(best, picked + c)
      decreases remaining
    {
      if best.Some? {
        LexReflexive(best.value);
      }
      if remaining == 0 {
        assert Completes([], 0, startIndex + 1);
        assert picked + [] == picked;
        OnlyEmptyCompletesZero(startIndex + 1);
        if Improves(picked, best) {
          LexReflexive(picked);
          if best.Some? && |picked| == |best.value| { LexAsymmetric(picked, best.value); }
          best := Some(picked);
          assert ExtendedBy(best, picked, remaining, startIndex + 1);
        }
        return;
      }
      if best.Some? && |picked| >= |best.value| {
        return;
      }
      ghost var stack := picked;
      var index := startIndex;
      while index >= 0
        invariant -1 <= index <= startIndex
        invariant picked == stack
        invariant best == old(best) || ExtendedBy(best, stack, remaining, startIndex + 1)
        invariant old(best).Some? ==> Beats(best, old(best).value)
        invariant forall c :: Completes(c, remaining, startIndex + 1) && c[0] > index + 1 ==> Beats(best, stack + c)
      {
        var (base, tri) := triangulars[index];
        if tri <= remaining {
          ghost var before := best;
          picked := picked + [base];
          TriMonotone(base, base);
          Search(remaining - tri, index);
          picked := picked[..|picked| - 1];
          ChildExtends(before, best, stack, base, remaining, startIndex + 1);
          if before.Some? && old(best).Some? {
            NotWorseTransitive(best.value, before.value, old(best).value);
          }
          ChildCovers(before, best, stack, base, remaining, startIndex + 1);
        }
        index := index - 1;
      }
    }
  }

  /** What a call on the stack extended by `base` says about the stack itself. */
  lemma ChildExtends(before: Option<seq<nat>>, after: Option<seq<nat>>, stack: seq<nat>, base: nat,
                     remaining: nat, cap: nat)
    requires 1 <= base <= cap && Tri(base) <= remaining
    requires after == before || ExtendedBy(after, stack + [base], remaining - Tri(base), base)
    ensures after == before || ExtendedBy(after, stack, remaining, cap)
  {
    if after != before {
      var c :| Completes(c, remaining - Tri(base), base) && after == Some(stack + [base] + c);
      assert ([base] + c)[1..] == c;
      assert stack + [base] + c == stack + ([base] + c);
      assert Completes([base] + c, remaining, cap);
    }
  }

  lemma StartsWithBase(c: seq<nat>, stack: seq<nat>, base: nat, remaining: nat, cap: nat)
    requires 0 < remaining && Completes(c, remaining, cap) && c[0] == base && Tri(base) <= remaining
    ensures Completes(c[1..], remaining - Tri(base), base) && stack + [base] + c[1..] == stack + c
  {
    assert c == [base] + c[1..];
  }

  lemma ChildCovers(before: Option<seq<nat>>, after: Option<seq<nat>>, stack: seq<nat>, base: nat,
                    remaining: nat, cap: nat)
    requires 1 <= base <= cap && Tri(base) <= remaining
    requires before.Some? ==> Beats(after, before.value)
    requires forall c :: Completes(c, remaining, cap) && c[0] > base ==> Beats(before, stack + c)
    requires forall c :: Completes(c, remaining - Tri(base), base) ==> Beats(after, stack + [base] + c)
    requires 0 < remaining
    ensures forall c :: Completes(c, remaining, cap) && c[0] >= base ==> Beats(after, stack + c)
  {
    forall c | Completes(c, remaining, cap) && c[0] >= base
      ensures Beats(after, stack + c)
    {
      if c[0] > base {
        NotWorseTransitive(after.value, before.value, stack + c);
      } else {
        StartsWithBase(c, stack, base, remaining, cap);
      }
    }
  }

  method DecomposeTriangularPiles(total: int) returns (r: seq<nat>)
    ensures total <= 0 ==> r == []
    ensures total > 0 ==> Optimal(r, total)
  {
    if total <= 0 {
      return [];
    }
    var triangulars: seq<(nat, nat)> := [];
    var base := 1;
    TriMonotone(1, 1);
    while Tri(base) <= total
      invariant 1 <= base && |triangulars| == base - 1
      invariant forall i :: 0 <= i < |triangulars| ==> triangulars[i] == (i + 1, Tri(i + 1))
      decreases total - base
    {
      TriMonotone(base, base);
      triangulars := triangulars + [(base, Tri(base))];
      base := base + 1;
    }
    var search := new PileSearch(triangulars);
    search.Search(total, |triangulars| - 1);
    ghost var cap := |triangulars|;
    forall d: seq<nat> | Positive(d) && Total(d) == total
      ensures Beats(search.best, d)
    {
      PartsFit(d, cap);
      SortDownFacts(d, cap);
      assert [] + SortDown(d) == SortDown(d);
      assert Beats(search.best, SortDown(d));
      NotWorseTransitive(search.best.value, SortDown(d), d);
    }
    OnesComplete(total);
    var Some(best) := search.best;
    assert Completes(best, total, cap) by {
      var c :| Completes(c, total, cap) && search.best == Some([] + c);
      assert [] + c == c;
    }
    r := best;
    NonIncreasingWeaken(r, total, cap);
  }

  lemma {:induction false} OnesComplete(n: nat)
    ensures Positive(seq(n, _ => 1)) && Total(seq(n, _ => 1)) == n
  {
    if n > 0 {
      OnesComplete(n - 1);
      assert seq(n, _ => 1)[1..] == seq(n - 1, _ => 1);
    }
  }

  // ------------------------------------------------------------ the capped greedy

  /** The least base >= 1 whose triangular number reaches `total`. */
  method SmallestTriangularBase(total: int) returns (base: nat)
    ensures 1 <= base && total <= Tri(base)
    ensures 1 < base ==> Tri(base - 1) < total
  {
    base := 1;
    while Tri(base) < total
      invariant 1 <= base
      invariant 1 < base ==> Tri(base - 1) < total
      decreases total - base
    {
      TriMonotone(base, base);
      base := base + 1;
    }
  }

  /** The widest pile of at most `cap` that `remaining` fills. */
  ghost predicate WidestFit(base: nat, remaining: nat, cap: nat) {
    1 <= base <= cap && Tri(base) <= remaining && (base == cap || remaining < Tri(base + 1))
  }

  lemma WidestFitIsUnique(a: nat, b: nat, remaining: nat, cap: nat)
    requires WidestFit(a, remaining, cap) && WidestFit(b, remaining, cap)
    ensures a == b
  {
    if a < b { TriMonotone(a + 1, b); }
    if b < a { TriMonotone(b + 1, a); }
  }

  /** Every pile is the widest that fits what was left when it was placed. */
  ghost predicate Greedy(bases: seq<nat>, total: nat, cap: nat) {
    if bases == [] then total == 0
    else WidestFit(bases[0], total, cap) && Greedy(bases[1..], total - Tri(bases[0]), cap)
  }

  lemma GreedyExtends(before: seq<nat>, base: nat, remaining: nat, total: nat, cap: nat)
    requires WidestFit(base, remaining, cap)
    requires forall rest :: Greedy(rest, remaining, cap) ==> Greedy(before + rest, total, cap)
    ensures forall rest :: Greedy(rest, remaining - Tri(base), cap) ==> Greedy(before + [base] + rest, total, cap)
  {
    forall rest | Greedy(rest, remaining - Tri(base), cap)
      ensures Greedy(before + [base] + rest, total, cap)
    {
      assert ([base] + rest)[1..] == rest;
      assert before + [base] + rest == before + ([base] + rest);
    }
  }

  /** One round of the greedy loop: the base of the next pile. */
  method NextCappedBase(remaining: nat, maxBase: nat) returns (base: nat)
    requires 1 <= maxBase && 1 <= remaining
    ensures WidestFit(base, remaining, maxBase)
  {
    var smallest := SmallestTriangularBase(remaining);
    base := if maxBase <= smallest then maxBase else smallest;
    if base < maxBase { TriMonotone(base, base + 1); }
    while Tri(base) > remaining && base > 1
      invariant 1 <= base <= maxBase
      invariant base == maxBase || remaining < Tri(base + 1)
    {
      base := base - 1;
    }
    if remaining > Tri(maxBase) {
      base := maxBase;
    }
  }

  method DecomposeGreedily(total: int, maxBase: nat) returns (bases: seq<nat>)
    requires 1 <= maxBase
    ensures total <= 0 ==> bases == []
    ensures total > 0 ==> Greedy(bases, total, maxBase)
  {
    bases := [];
    if total <= 0 {
      return;
    }
    var remaining: nat := total;
    assert forall rest: seq<nat> {:trigger Greedy(rest, total, maxBase)} :: bases + rest == rest;
    while remaining > 0
      invariant forall rest :: Greedy(rest, remaining, maxBase) ==> Greedy(bases + rest, total, maxBase)
    {
      var base := NextCappedBase(remaining, maxBase);
      GreedyExtends(bases, base, remaining, total, maxBase);
      bases := bases + [base];
      remaining := remaining - Tri(base);
    }
    assert Greedy([], 0, maxBase);
    assert bases + [] == bases;
  }

  /** The formula of the program on any integer: a negative base counts as one less turned
      around. */
  function TriangularNumber(base: int): nat {
    if base >= 0 then Tri(base) else Tri(-base - 1)
  }

  lemma TriangularNumberFormula(base: int)
    ensures TriangularNumber(base) == base * (base + 1) / 2
  {
    if base >= 0 {
      TriClosedForm(base);
    } else {
      TriClosedForm(-base - 1);
      assert (-base - 1) * (-base) == base * (base + 1);
    }
  }

  /** The scrolls of `n` piles of `size`. */
  function Copies(n: nat, size: nat): nat {
    if n == 0 then 0 else Copies(n - 1, size) + size
  }

  /** Nothing but piles of the cap, as few as reach the total. */
  ghost predicate FewestCopies(bases: seq<int>, total: int, cap: int) {
    && bases != [] && (forall i :: 0 <= i < |bases| ==> bases[i] == cap)
    && Copies(|bases| - 1, TriangularNumber(cap)) < total <= Copies(|bases|, TriangularNumber(cap))
  }

  /** With a cap of 0 or -1 a pile holds nothing and the loop of the original never ends. With
      a smaller one every pile is the cap itself, which overshoots unless the total divides. */
  method DecomposeCapped(total: int, maxBase: int) returns (bases: seq<int>)
    requires total <= 0 || (maxBase != 0 && maxBase != -1)
    ensures total <= 0 ==> bases == []
    ensures total > 0 && maxBase >= 1 ==>
            (forall i :: 0 <= i < |bases| ==> bases[i] >= 0) && Greedy(bases, total, maxBase)
    ensures total > 0 && maxBase < 1 ==> FewestCopies(bases, total, maxBase)
  {
    if total <= 0 {
      return [];
    }
    if maxBase >= 1 {
      bases := DecomposeGreedily(total, maxBase);
      return;
    }
    bases := [];
    var remaining := total;
    assert 1 <= TriangularNumber(maxBase) by { TriMonotone(1, -maxBase - 1); }
    while remaining > 0
      invariant forall i :: 0 <= i < |bases| ==> bases[i] == maxBase
      invariant remaining == total - Copies(|bases|, TriangularNumber(maxBase))
      invariant bases != [] ==> Copies(|bases| - 1, TriangularNumber(maxBase)) < total
    {
      bases := bases + [maxBase];
      remaining := remaining - TriangularNumber(maxBase);
    }
  }

  /** What the overshoot is: none exactly when the pile divides the total. */
  lemma {:induction false} CopiesHitExactlyWhen(bases: seq<int>, total: int, cap: int)
    requires FewestCopies(bases, total, cap) && TriangularNumber(cap) >= 1
    ensures Copies(|bases|, TriangularNumber(cap)) < total + TriangularNumber(cap)
    ensures Copies(|bases|, TriangularNumber(cap)) == total <==>
            exists n: nat :: Copies(n, TriangularNumber(cap)) == total
  {
    var size := TriangularNumber(cap);
    forall n: nat | Copies(n, size) == total
      ensures n == |bases|
    {
      if n < |bases| { CopiesGrow(n, |bases| - 1, size); }
      if n > |bases| { CopiesGrow(|bases|, n - 1, size); }
    }
  }

  lemma {:induction false} CopiesGrow(n: nat, m: nat, size: nat)
    requires n <= m
    ensures Copies(n, size) <= Copies(m, size)
    decreases m
  {
    if n < m { CopiesGrow(n, m - 1, size); }
  }

  /** The greedy rule conserves the total, descends, and leaves no choice. */
  lemma {:induction false} GreedyFacts(bases: seq<nat>, total: nat, cap: nat)
    requires Greedy(bases, total, cap)
    ensures Completes(bases, total, cap)
    ensures forall other :: Greedy(other, total, cap) ==> other == bases
  {
    if bases == [] {
      assert forall other :: Greedy(other, 0, cap) ==> other == [];
    } else {
      TriMonotone(bases[0], bases[0]);
      GreedyFacts(bases[1..], total - Tri(bases[0]), cap);
      forall other | Greedy(other, total, cap)
        ensures other == bases
      {
        WidestFitIsUnique(bases[0], other[0], total, cap);
        assert Greedy(other[1..], total - Tri(bases[0]), cap);
        assert bases == [bases[0]] + bases[1..] && other == [other[0]] + other[1..];
      }
    }
  }

  /** After a pile that the cap did not limit, what is left is at most its base. */
  lemma {:induction false} UncappedRemainder(bases: seq<nat>, total: nat, cap: nat, i: nat)
    requires Greedy(bases, total, cap) && i < |bases|
    requires bases[i] < cap || total < Tri(cap + 1)
    ensures Total(bases[i + 1..]) <= bases[i]
  {
    GreedyFacts(bases, total, cap);
    if i > 0 {
      UncappedRemainder(bases[1..], total - Tri(bases[0]), cap, i - 1);
      assert bases[1..][i..] == bases[i + 1..];
    }
  }

  /** The least total that needs `n` greedy piles when no cap applies: 1, 2, 5, 20, 230, ... */
  function LeastFor(n: nat): nat
    requires 1 <= n
  {
    if n == 1 then 1 else Tri(LeastFor(n - 1)) + LeastFor(n - 1)
  }

  /** So the number of piles grows doubly logarithmically with an uncapped total. */
  lemma {:induction false} UncappedPileCount(bases: seq<nat>, total: nat, cap: nat)
    requires Greedy(bases, total, cap) && bases != [] && total < Tri(cap + 1)
    ensures LeastFor(|bases|) <= total
  {
    if |bases| > 1 {
      var base, left := bases[0], total - Tri(bases[0]);
      TriMonotone(base, cap + 1);
      UncappedPileCount(bases[1..], left, cap);
      TriMonotone(LeastFor(|bases| - 1), base);
    }
  }

  /** The bound is attained: `LeastFor(n)` takes exactly `n` piles. */
  lemma {:induction false} UncappedPileCountAttained(n: nat, bases: seq<nat>, cap: nat)
    requires 1 <= n && Greedy(bases, LeastFor(n), cap) && LeastFor(n) < Tri(cap + 1)
    ensures |bases| == n
  {
    LeastForPositive(n);
    if n > 1 {
      var least := LeastFor(n - 1);
      LeastForPositive(n - 1);
      if cap < least { TriMonotone(cap + 1, least); }
      WidestFitIsUnique(bases[0], least, LeastFor(n), cap);
      UncappedPileCountAttained(n - 1, bases[1..], cap);
    } else {
      WidestFitIsUnique(bases[0], 1, 1, cap);
    }
  }

  lemma {:induction false} LeastForPositive(n: nat)
    requires 1 <= n
    ensures 1 <= LeastFor(n)
  {
    if n > 1 { LeastForPositive(n - 1); }
  }

  /** A capped run is full-width piles first, as many as fit, then an uncapped tail. */
  lemma {:induction false} CappedPileCount(bases: seq<nat>, total: nat, cap: nat) returns (full: nat, tail: seq<nat>)
    requires Greedy(bases, total, cap) && 1 <= cap
    ensures bases == seq(full, _ => cap) + tail && Total(tail) < Tri(cap)
    ensures Greedy(tail, Total(tail), cap)
    ensures tail != [] ==> LeastFor(|tail|) < Tri(cap)
  {
    GreedyFacts(bases, total, cap);
    if Tri(cap) <= total {
      WidestFitIsUnique(bases[0], cap, total, cap);
      full, tail := CappedPileCount(bases[1..], total - Tri(cap), cap);
      assert bases == [cap] + bases[1..];
      assert seq(full + 1, _ => cap) == [cap] + seq(full, _ => cap);
      full := full + 1;
    } else {
      full, tail := 0, bases;
      if bases != [] { UncappedPileCount(bases, total, cap); }
    }
  }
}
