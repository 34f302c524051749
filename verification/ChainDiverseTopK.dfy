/** Cutting a ranked list to its top k while no chain takes more than its share.

    Phase one scans the ranking and defers an item whose chain is already at its cap;
    phase two fills the remaining places with the deferred items, best first. */
module ChainDiverseTopK {
  import opened Wrappers

  datatype Item = Item(id: Id, chain: Option<Id>, score: real)

  /** An item without a chain, or with an empty chain id, is never capped. */
  predicate HasChain(item: Item) {
    item.chain.Some? && item.chain.value.text != ""
  }

  predicate OnChain(item: Item, c: Id) {
    HasChain(item) && item.chain.value == c
  }

  /** The least number that is at least the minimum and at least a third of top k. */
  function ChainCap(topK: int, chainDiversityMin: int): (cap: int)
    ensures chainDiversityMin <= cap && topK <= 3 * cap
    ensures forall c: int :: chainDiversityMin <= c && topK <= 3 * c ==> cap <= c
  {
    var third := (topK + 2) / 3;
    if chainDiversityMin >= third then chainDiversityMin else third
  }

  // --------------------------------------------------------------- specification

  predicate RankOnChain(ranked: seq<Item>, i: nat, c: Id) {
    i < |ranked| && OnChain(ranked[i], c)
  }

  function CountOn(ranked: seq<Item>, picks: seq<nat>, c: Id): nat {
    if picks == [] then 0
    else CountOn(ranked, picks[..|picks| - 1], c) + (if RankOnChain(ranked, picks[|picks| - 1], c) then 1 else 0)
  }

  predicate Ascending(picks: seq<nat>) {
    forall i, j :: 0 <= i < j < |picks| ==> picks[i] < picks[j]
  }

  predicate AtCap(ranked: seq<Item>, picks: seq<nat>, cap: int, item: Item) {
    HasChain(item) && CountOn(ranked, picks, item.chain.value) >= cap
  }

  /** The ranks phase one has picked and deferred after the first `n` items. */
  function Scan(ranked: seq<Item>, k: nat, cap: int, n: nat): (seq<nat>, seq<nat>)
    requires n <= |ranked|
  {
    if n == 0 then ([], [])
    else
      var (picked, deferred) := Scan(ranked, k, cap, n - 1);
      if |picked| >= k then (picked, deferred)
      else if AtCap(ranked, picked, cap, ranked[n - 1]) then (picked, deferred + [n - 1])
      else (picked + [n - 1], deferred)
  }

  function Picked(ranked: seq<Item>, k: nat, cap: int, n: nat): seq<nat>
    requires n <= |ranked|
  {
    Scan(ranked, k, cap, n).0
  }

  function Selected(ranked: seq<Item>, k: nat, cap: int): seq<nat> {
    var (picked, deferred) := Scan(ranked, k, cap, |ranked|);
    if |picked| < k then picked + Prefix(deferred, k - |picked|) else picked
  }

  function Prefix<T>(s: seq<T>, n: nat): seq<T> {
    if n < |s| then s[..n] else s
  }

  /** `items` are the items at these ranks. */
  ghost predicate Lists(ranked: seq<Item>, picks: seq<nat>, items: seq<Item>) {
    |items| == |picks| && forall i :: 0 <= i < |picks| ==> picks[i] < |ranked| && items[i] == ranked[picks[i]]
  }

  /** At most the minimum, or at most a third of top k rounded up. */
  predicate WithinShare(n: nat, topK: int, chainDiversityMin: int) {
    n <= chainDiversityMin || 3 * (n - 1) < topK
  }

  function ItemsOn(items: seq<Item>, c: Id): nat {
    if items == [] then 0
    else ItemsOn(items[..|items| - 1], c) + (if items[|items| - 1].chain == Some(c) then 1 else 0)
  }

  /** Some choice of top k ranks keeps every chain within its share. */
  ghost predicate CanBeShared(ranked: seq<Item>, topK: nat, chainDiversityMin: int) {
    exists ranks: set<nat> :: SharesOut(ranked, topK, chainDiversityMin, ranks)
  }

  ghost predicate SharesOut(ranked: seq<Item>, topK: nat, chainDiversityMin: int, ranks: set<nat>) {
    && |ranks| == topK && (forall i :: i in ranks ==> i < |ranked|)
    && forall c: Id :: c.text != "" ==> WithinShare(|ranks * RanksWith(ranked, c)|, topK, chainDiversityMin)
  }

  ghost function RanksWith(ranked: seq<Item>, c: Id): set<nat> {
    set i: nat | i < |ranked| && ranked[i].chain == Some(c)
  }

  // --------------------------------------------------------------- implementation

  method ApplyTopK(ranked: seq<Item>, topK: int, chainDiversityMin: int) returns (selected: seq<Item>)
    ensures topK <= 0 ==> selected == []
    ensures topK > 0 ==> Lists(ranked, Selected(ranked, topK, ChainCap(topK, chainDiversityMin)), selected)
    ensures topK > 0 && CanBeShared(ranked, topK, chainDiversityMin) ==>
              |selected| == topK
              && forall c: Id :: c.text != "" ==> WithinShare(ItemsOn(selected, c), topK, chainDiversityMin)
  {
    selected := [];
    if topK <= 0 {
      return;
    }
    var deferred;
    selected, deferred := ScanRanking(ranked, topK, ChainCap(topK, chainDiversityMin));
    Backfilled(ranked, topK, ChainCap(topK, chainDiversityMin), selected, deferred);
    if |selected| < topK {
      selected := selected + Prefix(deferred, topK - |selected|);
    }
    if CanBeShared(ranked, topK, chainDiversityMin) {
      SharedFairly(ranked, topK, chainDiversityMin, selected);
    }
  }

  lemma Backfilled(ranked: seq<Item>, k: nat, cap: int, selected: seq<Item>, deferred: seq<Item>)
    requires var (picked, passed) := Scan(ranked, k, cap, |ranked|);
             Lists(ranked, picked, selected) && Lists(ranked, passed, deferred)
    ensures |selected| < k ==> Lists(ranked, Selected(ranked, k, cap), selected + Prefix(deferred, k - |selected|))
    ensures |selected| >= k ==> Lists(ranked, Selected(ranked, k, cap), selected)
  {
    var (picked, passed) := Scan(ranked, k, cap, |ranked|);
    if |selected| < k {
      ListsConcat(ranked, picked, Prefix(passed, k - |picked|), selected, Prefix(deferred, k - |selected|));
    }
  }

  lemma ListsConcat(ranked: seq<Item>, a: seq<nat>, b: seq<nat>, items: seq<Item>, more: seq<Item>)
    requires Lists(ranked, a, items) && Lists(ranked, b, more)
    ensures Lists(ranked, a + b, items + more)
  {
  }

  /** Phase one: the picked and the deferred items. */
  method ScanRanking(ranked: seq<Item>, topK: nat, cap: int) returns (selected: seq<Item>, deferred: seq<Item>)
    ensures var (picked, passed) := Scan(ranked, topK, cap, |ranked|);
            Lists(ranked, picked, selected) && Lists(ranked, passed, deferred)
  {
    selected, deferred := [], [];
    var counts: map<Id, nat> := map[];
    var n := 0;
    while n < |ranked| && |selected| < topK
      invariant n <= |ranked|
      invariant Scanning(ranked, topK, cap, n, selected, deferred, counts)
    {
      var item := ranked[n];
      ScanStep(ranked, topK, cap, n, selected, deferred, counts);
      n := n + 1;
      if Turned(item, cap, counts) {
        deferred := deferred + [item];
      } else {
        selected := selected + [item];
        counts := Tally(item, counts);
      }
    }
    FullScanStays(ranked, topK, cap, n);
  }

  lemma {:induction false} FullScanStays(ranked: seq<Item>, k: nat, cap: int, n: nat)
    requires n <= |ranked| && (n == |ranked| || k <= |Picked(ranked, k, cap, n)|)
    ensures Scan(ranked, k, cap, |ranked|) == Scan(ranked, k, cap, n)
    decreases |ranked| - n
  {
    if n < |ranked| {
      FullScanStays(ranked, k, cap, n + 1);
    }
  }

  function CountOf(counts: map<Id, nat>, c: Id): nat {
    if c in counts then counts[c] else 0
  }

  predicate Turned(item: Item, cap: int, counts: map<Id, nat>) {
    HasChain(item) && CountOf(counts, item.chain.value) >= cap
  }

  function Tally(item: Item, counts: map<Id, nat>): map<Id, nat> {
    if HasChain(item) then counts[item.chain.value := CountOf(counts, item.chain.value) + 1] else counts
  }

  ghost predicate Counted(ranked: seq<Item>, picks: seq<nat>, counts: map<Id, nat>) {
    forall c :: CountOf(counts, c) == CountOn(ranked, picks, c)
  }

  ghost predicate Scanning(ranked: seq<Item>, k: nat, cap: int, n: nat, selected: seq<Item>, deferred: seq<Item>,
                           counts: map<Id, nat>)
    requires n <= |ranked|
  {
    var (picked, passed) := Scan(ranked, k, cap, n);
    Lists(ranked, picked, selected) && Lists(ranked, passed, deferred) && Counted(ranked, picked, counts)
  }

  /** One item of the scan. */
  lemma ScanStep(ranked: seq<Item>, k: nat, cap: int, n: nat, selected: seq<Item>, deferred: seq<Item>,
                 counts: map<Id, nat>)
    requires n < |ranked| && |selected| < k
    requires Scanning(ranked, k, cap, n, selected, deferred, counts)
    ensures Turned(ranked[n], cap, counts) ==>
              Scanning(ranked, k, cap, n + 1, selected, deferred + [ranked[n]], counts)
    ensures !Turned(ranked[n], cap, counts) ==>
              Scanning(ranked, k, cap, n + 1, selected + [ranked[n]], deferred, Tally(ranked[n], counts))
  {
    var (picked, passed) := Scan(ranked, k, cap, n);
    assert (picked + [n])[..|picked|] == picked;
    assert (passed + [n])[..|passed|] == passed;
    CountAppend(ranked, picked, n);
  }

  lemma CountAppend(ranked: seq<Item>, picks: seq<nat>, n: nat)
    requires n < |ranked|
    ensures forall c :: CountOn(ranked, picks + [n], c) ==
                        CountOn(ranked, picks, c) + (if OnChain(ranked[n], c) then 1 else 0)
  {
    assert (picks + [n])[..|picks|] == picks;
  }

  // --------------------------------------------------------------- what it yields

  lemma AppendAscending(s: seq<nat>, x: nat)
    requires Ascending(s) && AllBelow(s, x)
    ensures Ascending(s + [x]) && AllBelow(s + [x], x + 1)
  {
  }

  predicate AllBelow(s: seq<nat>, n: nat) {
    forall i :: 0 <= i < |s| ==> s[i] < n
  }

  lemma {:induction false} ScanFacts(ranked: seq<Item>, k: nat, cap: int, n: nat)
    requires n <= |ranked|
    ensures var (picked, deferred) := Scan(ranked, k, cap, n);
            && Ascending(picked) && Ascending(deferred) && |picked| <= k
            && AllBelow(picked, n) && AllBelow(deferred, n)
            && (forall i :: i in deferred ==> i !in picked)
            && (|picked| < k ==> |picked| + |deferred| == n && forall i: nat :: i < n ==> i in picked || i in deferred)
  {
    if n > 0 {
      ScanFacts(ranked, k, cap, n - 1);
      var (picked, deferred) := Scan(ranked, k, cap, n - 1);
      AppendAscending(picked, n - 1);
      AppendAscending(deferred, n - 1);
      assert n - 1 !in picked && n - 1 !in deferred;
    }
  }

  /** The result has exactly min(k, n) items, none twice, phase one's picks first. */
  lemma SelectionIsFull(ranked: seq<Item>, k: nat, cap: int)
    ensures var chosen := Selected(ranked, k, cap);
            && |chosen| == (if k < |ranked| then k else |ranked|)
            && (forall i, j :: 0 <= i < j < |chosen| ==> chosen[i] != chosen[j])
            && Picked(ranked, k, cap, |ranked|) <= chosen
  {
    ScanFacts(ranked, k, cap, |ranked|);
    ScanStaysWithin(ranked, k, cap, |ranked|);
    var (picked, deferred) := Scan(ranked, k, cap, |ranked|);
    if |picked| < k {
      AppendDistinct(picked, deferred, Prefix(deferred, k - |picked|));
    }
  }

  lemma AppendDistinct(picked: seq<nat>, deferred: seq<nat>, fill: seq<nat>)
    requires Ascending(picked) && Ascending(deferred) && fill <= deferred
    requires forall i :: i in deferred ==> i !in picked
    ensures forall i, j :: 0 <= i < j < |picked + fill| ==> (picked + fill)[i] != (picked + fill)[j]
  {
    var all := picked + fill;
    forall i, j | 0 <= i < j < |all|
      ensures all[i] != all[j]
    {
      if i < |picked| <= j {
        assert all[j] == deferred[j - |picked|];
        assert all[j] in deferred && all[i] in picked;
      }
    }
  }

  /** An over-cap item is kept only when phase one fell short, and then only together
      with every over-cap item ranked above it. */
  lemma BackfillIsBest(ranked: seq<Item>, k: nat, cap: int, i: nat)
    requires i in Selected(ranked, k, cap) && i !in Picked(ranked, k, cap, |ranked|)
    ensures var (picked, deferred) := Scan(ranked, k, cap, |ranked|);
            |picked| < k && i in deferred && forall j :: j in deferred && j < i ==> j in Selected(ranked, k, cap)
  {
    ScanFacts(ranked, k, cap, |ranked|);
    var (picked, deferred) := Scan(ranked, k, cap, |ranked|);
    var fill := Prefix(deferred, k - |picked|);
    assert i in fill;
    PrefixIsBest(deferred, fill);
  }

  lemma {:induction false} ScanStaysWithin(ranked: seq<Item>, k: nat, cap: int, n: nat)
    requires n <= |ranked|
    ensures |Picked(ranked, k, cap, n)| <= n
  {
    if n > 0 {
      ScanStaysWithin(ranked, k, cap, n - 1);
    }
  }

  lemma PrefixIsBest(s: seq<nat>, fill: seq<nat>)
    requires Ascending(s) && fill <= s
    ensures forall i, j :: i in fill && j in s && j < i ==> j in fill
    ensures forall i :: i in fill ==> i in s
  {
    forall i, j | i in fill && j in s && j < i
      ensures j in fill
    {
      var x :| 0 <= x < |s| && s[x] == j;
      var y :| 0 <= y < |fill| && fill[y] == i;
      assert s[y] == i;
      assert fill[x] == j;
    }
  }

  ghost function Members(s: seq<nat>): set<nat> {
    set i | i in s
  }

  ghost function Below(s: set<nat>, n: nat): set<nat> {
    set i | i in s && i < n
  }

  ghost function OnChainOf(ranked: seq<Item>, s: set<nat>, c: Id): set<nat> {
    set i | i in s && RankOnChain(ranked, i, c)
  }

  /** A rival selection: at most `k` ranks, at most `cap` on any chain. */
  ghost predicate Feasible(ranked: seq<Item>, k: nat, cap: int, rival: set<nat>) {
    && (forall i :: i in rival ==> i < |ranked|)
    && |rival| <= k
    && forall c :: |OnChainOf(ranked, rival, c)| <= cap
  }

  lemma {:induction false} CountIsCardinality(ranked: seq<Item>, picks: seq<nat>, c: Id)
    requires Ascending(picks)
    ensures |OnChainOf(ranked, Members(picks), c)| == CountOn(ranked, picks, c)
  {
    if picks == [] {
      assert OnChainOf(ranked, Members(picks), c) == {};
    } else {
      var rest, last := picks[..|picks| - 1], picks[|picks| - 1];
      CountIsCardinality(ranked, rest, c);
      assert Members(picks) == Members(rest) + {last};
      var before := OnChainOf(ranked, Members(rest), c);
      if RankOnChain(ranked, last, c) {
        assert OnChainOf(ranked, Members(picks), c) == before + {last};
        assert last !in before;
      } else {
        assert OnChainOf(ranked, Members(picks), c) == before;
      }
    }
  }

  lemma {:induction false} AscendingSize(s: seq<nat>)
    requires Ascending(s)
    ensures |Members(s)| == |s|
  {
    if s != [] {
      var rest, last := s[..|s| - 1], s[|s| - 1];
      AscendingSize(rest);
      assert Members(s) == Members(rest) + {last} && last !in Members(rest);
    }
  }

  /** Phase one itself is a feasible selection whenever its cap is not negative. */
  lemma PhaseOneIsFeasible(ranked: seq<Item>, k: nat, cap: int)
    requires 0 <= cap
    ensures Feasible(ranked, k, cap, Members(Picked(ranked, k, cap, |ranked|)))
  {
    ScanFacts(ranked, k, cap, |ranked|);
    var picked := Picked(ranked, k, cap, |ranked|);
    AscendingSize(picked);
    forall c
      ensures |OnChainOf(ranked, Members(picked), c)| <= cap
    {
      CountIsCardinality(ranked, picked, c);
      CountWithinCap(ranked, k, cap, |ranked|, c);
    }
  }

  lemma {:induction false} CountWithinCap(ranked: seq<Item>, k: nat, cap: int, n: nat, c: Id)
    requires 0 <= cap && n <= |ranked|
    ensures CountOn(ranked, Picked(ranked, k, cap, n), c) <= cap
  {
    if n > 0 {
      CountWithinCap(ranked, k, cap, n - 1, c);
      var before := Picked(ranked, k, cap, n - 1);
      assert (before + [n - 1])[..|before|] == before;
    }
  }

  /** A rank below `n` that phase one passed over while it still had room belongs to a
      named chain that already has `cap` picks. */
  lemma {:induction false} PassedOverMeansFull(ranked: seq<Item>, k: nat, cap: int, n: nat, j: nat)
    requires j < n <= |ranked| && |Picked(ranked, k, cap, n)| < k && j !in Picked(ranked, k, cap, n)
    ensures ranked[j].chain.Some? && ranked[j].chain.value.text != ""
    ensures cap <= CountOn(ranked, Picked(ranked, k, cap, n), ranked[j].chain.value)
  {
    var before := Picked(ranked, k, cap, n - 1);
    assert (before + [n - 1])[..|before|] == before;
    assert (before + [n - 1])[|before|] == n - 1;
    if j < n - 1 {
      assert forall i :: i in before ==> i in before + [n - 1];
      PassedOverMeansFull(ranked, k, cap, n - 1, j);
    }
  }

  /** In every prefix of the ranking, phase one holds at least as many items as any
      feasible rival. Exchange: each rival item that phase one passed over can be traded
      for a phase-one item of the same chain. */
  lemma {:induction false} PhaseOneDominates(ranked: seq<Item>, k: nat, cap: int, rival: set<nat>, n: nat)
    requires n <= |ranked| && Feasible(ranked, k, cap, rival)
    ensures |Below(rival, n)| <= |Picked(ranked, k, cap, n)|
    decreases |Below(rival, n) - Members(Picked(ranked, k, cap, n))|
  {
    var picked := Picked(ranked, k, cap, n);
    var mine := Members(picked);
    ScanFacts(ranked, k, cap, n);
    if |picked| >= k {
      SubsetSize(Below(rival, n), rival);
    } else if Below(rival, n) <= mine {
      SubsetSize(Below(rival, n), mine);
      SeqSize(picked);
    } else {
      var j, g, c := FindTrade(ranked, k, cap, rival, n);
      var traded := rival - {j} + {g};
      TradeKeepsFeasible(ranked, k, cap, rival, j, g, c);
      assert Below(traded, n) == Below(rival, n) - {j} + {g};
      assert Below(traded, n) - mine == (Below(rival, n) - mine) - {j};
      PhaseOneDominates(ranked, k, cap, traded, n);
    }
  }

  lemma FindTrade(ranked: seq<Item>, k: nat, cap: int, rival: set<nat>, n: nat) returns (j: nat, g: nat, c: Id)
    requires n <= |ranked| && Feasible(ranked, k, cap, rival) && |Picked(ranked, k, cap, n)| < k
    requires !(Below(rival, n) <= Members(Picked(ranked, k, cap, n)))
    ensures j in Below(rival, n) && j !in Picked(ranked, k, cap, n) && OnChain(ranked[j], c)
    ensures g in Picked(ranked, k, cap, n) && g < n && g !in rival && OnChain(ranked[g], c)
  {
    var picked := Picked(ranked, k, cap, n);
    j :| j in Below(rival, n) && j !in Members(picked);
    ScanFacts(ranked, k, cap, n);
    PassedOverMeansFull(ranked, k, cap, n, j);
    c := ranked[j].chain.value;
    CountIsCardinality(ranked, picked, c);
    var ours, theirs := OnChainOf(ranked, Members(picked), c), OnChainOf(ranked, rival, c);
    assert !(ours <= rival) by {
      if ours <= rival {
        assert ours + {j} <= theirs && j !in ours;
        SubsetSize(ours + {j}, theirs);
      }
    }
    g :| g in ours && g !in rival;
  }

  lemma TradeKeepsFeasible(ranked: seq<Item>, k: nat, cap: int, rival: set<nat>, j: nat, g: nat, c: Id)
    requires Feasible(ranked, k, cap, rival) && j in rival && g !in rival && g < |ranked|
    requires OnChain(ranked[j], c) && OnChain(ranked[g], c)
    ensures Feasible(ranked, k, cap, rival - {j} + {g})
  {
    forall d
      ensures |OnChainOf(ranked, rival - {j} + {g}, d)| <= cap
    {
      TradeOnChain(ranked, rival, j, g, c, d);
    }
  }

  lemma TradeOnChain(ranked: seq<Item>, rival: set<nat>, j: nat, g: nat, c: Id, d: Id)
    requires j in rival && g !in rival && j < |ranked| && g < |ranked|
    requires OnChain(ranked[j], c) && OnChain(ranked[g], c)
    ensures |OnChainOf(ranked, rival - {j} + {g}, d)| == |OnChainOf(ranked, rival, d)|
  {
    var before := OnChainOf(ranked, rival, d);
    if d == c {
      assert OnChainOf(ranked, rival - {j} + {g}, d) == before - {j} + {g};
      assert j in before && g !in before;
    } else {
      assert OnChainOf(ranked, rival - {j} + {g}, d) == before;
    }
  }

  lemma {:induction false} SubsetSize(a: set<nat>, b: set<nat>)
    requires a <= b
    ensures |a| <= |b|
  {
    if a != {} {
      var x :| x in a;
      SubsetSize(a - {x}, b - {x});
    }
  }

  lemma {:induction false} SeqSize(s: seq<nat>)
    ensures |Members(s)| <= |s|
  {
    if s != [] {
      SeqSize(s[1..]);
      assert Members(s) == Members(s[1..]) + {s[0]};
    }
  }

  // --------------------------------------------------- position by position

  ghost predicate Ranked(ranked: seq<Item>) {
    forall i, j :: 0 <= i < j < |ranked| ==> ranked[i].score >= ranked[j].score
  }

  lemma {:induction false} ScanGrows(ranked: seq<Item>, k: nat, cap: int, m: nat, n: nat)
    requires m <= n <= |ranked|
    ensures Picked(ranked, k, cap, m) <= Picked(ranked, k, cap, n)
    decreases n
  {
    if m < n {
      ScanGrows(ranked, k, cap, m, n - 1);
    }
  }

  /** So the p-th pick ranks no lower, and scores no less, than the p-th item of any
      feasible rival listed in rank order. */
  lemma PickByPick(ranked: seq<Item>, k: nat, cap: int, rival: seq<nat>, p: nat)
    requires Ascending(rival) && Feasible(ranked, k, cap, Members(rival)) && p < |rival|
    ensures var picked := Picked(ranked, k, cap, |ranked|);
            && p < |picked| && picked[p] <= rival[p] < |ranked|
            && (Ranked(ranked) ==> ranked[picked[p]].score >= ranked[rival[p]].score)
  {
    var n := rival[p] + 1;
    assert rival[p] in Members(rival);
    PhaseOneDominates(ranked, k, cap, Members(rival), n);
    assert Members(rival[..p + 1]) <= Below(Members(rival), n);
    AscendingSize(rival[..p + 1]);
    SubsetSize(Members(rival[..p + 1]), Below(Members(rival), n));
    ScanFacts(ranked, k, cap, n);
    ScanGrows(ranked, k, cap, n, |ranked|);
    var early := Picked(ranked, k, cap, n);
    assert early[p] in early;
  }

  // ------------------------------------------------------------ the share of a chain

  lemma ShareIsCap(n: nat, topK: int, chainDiversityMin: int)
    requires topK > 0
    ensures WithinShare(n, topK, chainDiversityMin) <==> n <= ChainCap(topK, chainDiversityMin)
  {
    if !WithinShare(n, topK, chainDiversityMin) {
      assert chainDiversityMin <= n - 1 && topK <= 3 * (n - 1);
    }
  }

  lemma {:induction false} ItemsOnIs(ranked: seq<Item>, picks: seq<nat>, items: seq<Item>, c: Id)
    requires Lists(ranked, picks, items) && c.text != ""
    ensures ItemsOn(items, c) == CountOn(ranked, picks, c)
  {
    if items != [] {
      ItemsOnIs(ranked, picks[..|picks| - 1], items[..|items| - 1], c);
    }
  }

  /** Whenever the places can be filled with every chain within its share, they are. */
  lemma SharedFairly(ranked: seq<Item>, topK: nat, chainDiversityMin: int, items: seq<Item>)
    requires topK > 0 && CanBeShared(ranked, topK, chainDiversityMin)
    requires Lists(ranked, Selected(ranked, topK, ChainCap(topK, chainDiversityMin)), items)
    ensures |items| == topK
    ensures forall c: Id :: c.text != "" ==> WithinShare(ItemsOn(items, c), topK, chainDiversityMin)
  {
    var cap := ChainCap(topK, chainDiversityMin);
    var ranks :| SharesOut(ranked, topK, chainDiversityMin, ranks);
    forall c
      ensures |OnChainOf(ranked, ranks, c)| <= cap
    {
      if c.text == "" {
        assert OnChainOf(ranked, ranks, c) == {};
      } else {
        assert OnChainOf(ranked, ranks, c) == ranks * RanksWith(ranked, c);
        ShareIsCap(|OnChainOf(ranked, ranks, c)|, topK, chainDiversityMin);
      }
    }
    PhaseOneDominates(ranked, topK, cap, ranks, |ranked|);
    assert Below(ranks, |ranked|) == ranks;
    ScanFacts(ranked, topK, cap, |ranked|);
    forall c: Id | c.text != ""
      ensures WithinShare(ItemsOn(items, c), topK, chainDiversityMin)
    {
      CountWithinCap(ranked, topK, cap, |ranked|, c);
      ItemsOnIs(ranked, Picked(ranked, topK, cap, |ranked|), items, c);
      ShareIsCap(ItemsOn(items, c), topK, chainDiversityMin);
    }
  }
}
