/** From the assembled packet to what is emitted: roles, the functional path, its branches,
    the assessment and the selected view. */
module Assessment {
  import opened Wrappers
  import opened MemoryPacket

  const TRACE_MAX_BRANCHES: nat := 3

  /** Where "branch/main", the key of memories without a chain, stands among the chain ids. */
  const MAIN: Chain := Chain(0)

  // ------------------------------------------------------------------------- roles

  const FAILURES := {"failed_due_to", "reverse_failed_due_to", "caused_by", "reverse_caused_by"}
  const DECISIONS := {"decided_by", "linked_decision", "reverse_linked_decision"}
  const SOLUTIONS := {"supports_solution", "reverse_supports_solution", "resolved_by", "reverse_resolved_by"}
  const CONTRASTS := {"supersedes", "reverse_supersedes", "superseded_by", "reverse_superseded_by",
                      "contrasts_with", "reverse_contrasts_with"}
  const FUNCTIONAL := {"before", "after", "reverse_before", "reverse_after",
                       "supersedes", "reverse_supersedes", "superseded_by", "reverse_superseded_by",
                       "failed_due_to", "reverse_failed_due_to", "attempts_to_solve", "reverse_attempts_to_solve",
                       "supports_solution", "reverse_supports_solution", "derived_from", "reverse_derived_from",
                       "linked_decision", "reverse_linked_decision"}

  predicate Touches(relations: seq<Relation>, names: set<string>) {
    exists i :: 0 <= i < |relations| && relations[i].name in names
  }

  function AssemblyRole(facts: Facts, relations: seq<Relation>): Role {
    if facts.kind == ArchiveChunk then RawEvidence
    else if facts.freshness == Freshness.Contested || facts.lifecycle == Lifecycle.Contested then Caution
    else if Touches(relations, FAILURES) then FailedAttempt
    else if facts.kind == Incident || facts.kind == Journal || facts.failureWords then FailedAttempt
    else if facts.kind == Decision || Touches(relations, DECISIONS) then DecisionPivot
    else if Touches(relations, SOLUTIONS) || facts.successWords then SuccessfulResolution
    else if facts.kind == Procedure then CurrentReusableProcedure
    else if facts.diagnosisWords then Diagnosis
    else if Touches(relations, CONTRASTS) then Caution
    else Context
  }

  ghost predicate Has(relations: seq<Relation>, name: string) {
    Relation(name) in relations
  }

  /** The relations that make a failed attempt of a memory. */
  ghost predicate HasFailed(relations: seq<Relation>) {
    || Has(relations, "failed_due_to") || Has(relations, "reverse_failed_due_to")
    || Has(relations, "caused_by") || Has(relations, "reverse_caused_by")
  }

  ghost predicate HasDecided(relations: seq<Relation>) {
    Has(relations, "decided_by") || Has(relations, "linked_decision") || Has(relations, "reverse_linked_decision")
  }

  ghost predicate HasSolved(relations: seq<Relation>) {
    || Has(relations, "supports_solution") || Has(relations, "reverse_supports_solution")
    || Has(relations, "resolved_by") || Has(relations, "reverse_resolved_by")
  }

  ghost predicate HasContrast(relations: seq<Relation>) {
    || Has(relations, "supersedes") || Has(relations, "reverse_supersedes")
    || Has(relations, "superseded_by") || Has(relations, "reverse_superseded_by")
    || Has(relations, "contrasts_with") || Has(relations, "reverse_contrasts_with")
  }

  lemma TouchesIs(relations: seq<Relation>, names: set<string>)
    ensures Touches(relations, names) <==> exists name :: name in names && Has(relations, name)
  {
    if Touches(relations, names) {
      var i :| 0 <= i < |relations| && relations[i].name in names;
      assert Relation(relations[i].name) == relations[i];
      assert Has(relations, relations[i].name);
    }
    if name :| name in names && Has(relations, name) {
      var i :| 0 <= i < |relations| && relations[i] == Relation(name);
    }
  }

  lemma RelationsDecide(relations: seq<Relation>)
    ensures Touches(relations, FAILURES) <==> HasFailed(relations)
    ensures Touches(relations, DECISIONS) <==> HasDecided(relations)
    ensures Touches(relations, SOLUTIONS) <==> HasSolved(relations)
    ensures Touches(relations, CONTRASTS) <==> HasContrast(relations)
  {
    TouchesIs(relations, FAILURES);
    TouchesIs(relations, DECISIONS);
    TouchesIs(relations, SOLUTIONS);
    TouchesIs(relations, CONTRASTS);
  }

  /** What stands in the way of any other role: being raw, contested, or a failure. */
  ghost predicate Contested(facts: Facts) {
    facts.freshness == Freshness.Contested || facts.lifecycle == Lifecycle.Contested
  }

  ghost predicate IsFailure(facts: Facts, relations: seq<Relation>) {
    HasFailed(relations) || facts.kind == Incident || facts.kind == Journal || facts.failureWords
  }

  ghost predicate IsSolution(facts: Facts, relations: seq<Relation>) {
    facts.kind != Decision && !HasDecided(relations) && (HasSolved(relations) || facts.successWords)
  }

  /** Each role by itself. A raw chunk is evidence, anything contested a caution, and a failure
      a failed attempt whatever else is said of it; a decision comes before a success, and a
      success before a procedure, a diagnosis or a contrast. */
  lemma RoleExactlyWhen(facts: Facts, relations: seq<Relation>)
    ensures var role := AssemblyRole(facts, relations);
            var plain := facts.kind != ArchiveChunk && !Contested(facts) && !IsFailure(facts, relations);
            var open := plain && facts.kind != Decision && !HasDecided(relations) && !IsSolution(facts, relations);
            && (role == RawEvidence <==> facts.kind == ArchiveChunk)
            && (role == FailedAttempt <==>
                facts.kind != ArchiveChunk && !Contested(facts) && IsFailure(facts, relations))
            && (role == DecisionPivot <==> plain && (facts.kind == Decision || HasDecided(relations)))
            && (role == SuccessfulResolution <==> plain && IsSolution(facts, relations))
            && (role == CurrentReusableProcedure <==> open && facts.kind == Procedure)
            && (role == Diagnosis <==> open && facts.kind != Procedure && facts.diagnosisWords)
            && (role == Context <==>
                open && facts.kind != Procedure && !facts.diagnosisWords && !HasContrast(relations))
  {
    RelationsDecide(relations);
  }

  function RoleOrder(role: Role): int {
    match role
    case FailedAttempt => 20
    case Diagnosis => 30
    case DecisionPivot => 40
    case SuccessfulResolution => 50
    case CurrentReusableProcedure => 60
    case Caution => 70
    case Context => 80
    case RawEvidence => 90
  }

  /** `number or default`: a missing number and 0 alike give way. */
  function Or(number: Option<int>, default: int): int {
    if number.Some? && number.value != 0 then number.value else default
  }

  function AssemblyOrder(role: Role, rank: Option<int>): int {
    RoleOrder(role) * 100 + Or(rank, 99)
  }

  datatype SortKey = SortKey(order: int, rank: int, place: int)

  /** A memory as the path and the assessment see it. */
  datatype Member = Member(id: Id, facts: Facts, role: Role, functional: bool, key: SortKey)

  function Seen(m: RuntimeMemory): Member
    reads m`role, m`relations, m`order, m`rank
  {
    Member(m.id, m.facts, if m.role.Some? then m.role.value else AssemblyRole(m.facts, m.relations),
           Touches(m.relations, FUNCTIONAL), SortKey(Or(m.order, 9000), Or(m.rank, 9999), m.facts.place))
  }

  /** The relations that put a memory on the path. */
  ghost predicate HasFunctional(relations: seq<Relation>) {
    || Has(relations, "before") || Has(relations, "after")
    || Has(relations, "reverse_before") || Has(relations, "reverse_after")
    || Has(relations, "supersedes") || Has(relations, "reverse_supersedes")
    || Has(relations, "superseded_by") || Has(relations, "reverse_superseded_by")
    || Has(relations, "failed_due_to") || Has(relations, "reverse_failed_due_to")
    || Has(relations, "attempts_to_solve") || Has(relations, "reverse_attempts_to_solve")
    || Has(relations, "supports_solution") || Has(relations, "reverse_supports_solution")
    || Has(relations, "derived_from") || Has(relations, "reverse_derived_from")
    || Has(relations, "linked_decision") || Has(relations, "reverse_linked_decision")
  }

  lemma FunctionalExactlyWhen(m: RuntimeMemory)
    ensures Seen(m).functional <==> HasFunctional(m.relations)
  {
    TouchesIs(m.relations, FUNCTIONAL);
  }

  // ---------------------------------------------------------------- functional path

  predicate IsPathCandidate(m: Member) {
    m.facts.chain.Some? || (m.role != Context && m.role != RawEvidence) || m.functional
  }

  function Candidates(items: seq<Member>): seq<Member> {
    if items == [] then []
    else
      var last := items[|items| - 1];
      Candidates(items[..|items| - 1]) + if IsPathCandidate(last) then [last] else []
  }

  predicate NotAfter(a: SortKey, b: SortKey) {
    a.order < b.order || (a.order == b.order && (a.rank < b.rank || (a.rank == b.rank && a.place <= b.place)))
  }

  ghost predicate InOrder(path: seq<Member>) {
    forall i, j :: 0 <= i < j < |path| ==> NotAfter(path[i].key, path[j].key)
  }

  /** The path is the candidates in key order, or empty when there are fewer than two. */
  ghost predicate IsPath(path: seq<Member>, items: seq<Member>) {
    if |Candidates(items)| < 2 then path == [] else multiset(path) == multiset(Candidates(items)) && InOrder(path)
  }

  /** A memory belongs on the path if it is part of a chain, plays a part of its own, or is
      functionally related; there has to be more than one of that kind. */
  lemma OnPathExactlyWhen(path: seq<Member>, items: seq<Member>, m: Member)
    requires IsPath(path, items) && m in items
    ensures m in path <==>
              && (m.facts.chain != None || m.functional
                  || m.role in {FailedAttempt, Diagnosis, DecisionPivot, SuccessfulResolution,
                                CurrentReusableProcedure, Caution})
              && |Candidates(items)| >= 2
    ensures |Candidates(items)| >= 2 <==>
              exists i, j :: 0 <= i < j < |items| && IsPathCandidate(items[i]) && IsPathCandidate(items[j])
    ensures forall i, j :: 0 <= i < j < |path| ==> NotAfter(path[i].key, path[j].key)
  {
    CandidatesAre(items);
    TwoCandidates(items);
    PathHolds(path, items, m);
  }

  lemma PathHolds(path: seq<Member>, items: seq<Member>, m: Member)
    requires IsPath(path, items)
    ensures m in path <==> |Candidates(items)| >= 2 && m in Candidates(items)
  {
    if |Candidates(items)| >= 2 {
      assert m in path <==> m in multiset(path);
      assert m in Candidates(items) <==> m in multiset(Candidates(items));
    }
  }

  lemma {:induction false} CandidatesAre(items: seq<Member>)
    ensures forall m :: m in Candidates(items) <==> m in items && IsPathCandidate(m)
  {
    if items != [] {
      CandidatesAre(items[..|items| - 1]);
      assert items == items[..|items| - 1] + [items[|items| - 1]];
    }
  }

  lemma {:induction false} OneCandidate(items: seq<Member>)
    ensures |Candidates(items)| >= 1 <==> exists i :: 0 <= i < |items| && IsPathCandidate(items[i])
  {
    if items != [] {
      var front := items[..|items| - 1];
      OneCandidate(front);
      assert forall i :: 0 <= i < |front| ==> front[i] == items[i];
    }
  }

  lemma {:induction false} TwoCandidates(items: seq<Member>)
    ensures |Candidates(items)| >= 2 <==>
              exists i, j :: 0 <= i < j < |items| && IsPathCandidate(items[i]) && IsPathCandidate(items[j])
  {
    if items != [] {
      var front := items[..|items| - 1];
      TwoCandidates(front);
      OneCandidate(front);
      assert forall i :: 0 <= i < |front| ==> front[i] == items[i];
    }
  }

  function InsertByKey(path: seq<Member>, m: Member): seq<Member> {
    if path == [] then [m]
    else if NotAfter(path[|path| - 1].key, m.key) then path + [m]
    else InsertByKey(path[..|path| - 1], m) + [path[|path| - 1]]
  }

  lemma {:induction false} InsertByKeyFacts(path: seq<Member>, m: Member)
    requires InOrder(path)
    ensures InOrder(InsertByKey(path, m)) && multiset(InsertByKey(path, m)) == multiset(path) + multiset{m}
  {
    if path != [] {
      var front, last := path[..|path| - 1], path[|path| - 1];
      assert path == front + [last];
      if NotAfter(last.key, m.key) {
        assert InOrder(path + [m]);
      } else {
        InsertByKeyFacts(front, m);
        var rest := InsertByKey(front, m);
        forall i | 0 <= i < |rest|
          ensures NotAfter(rest[i].key, last.key)
        {
          assert rest[i] in multiset(rest);
          assert rest[i] == m || rest[i] in front;
        }
      }
    }
  }

  /** Sorts the candidates; `FallbackNeverFires` says why the fallback on a chain is not here. */
  method BuildPath(items: seq<Member>) returns (path: seq<Member>)
    ensures IsPath(path, items)
  {
    var candidates := Candidates(items);
    path := [];
    if |candidates| >= 2 {
      for i := 0 to |candidates|
        invariant InOrder(path) && multiset(path) == multiset(candidates[..i])
      {
        InsertByKeyFacts(path, candidates[i]);
        assert candidates[..i + 1] == candidates[..i] + [candidates[i]];
        path := InsertByKey(path, candidates[i]);
      }
      assert candidates[..|candidates|] == candidates;
    }
  }

  function ChainGroup(items: seq<Member>, chain: Chain): seq<Member> {
    if items == [] then []
    else
      var last := items[|items| - 1];
      ChainGroup(items[..|items| - 1], chain) + if last.facts.chain == Some(chain) then [last] else []
  }

  /** The program falls back on a chain with two members when there are fewer than two
      candidates; there never is one. */
  lemma {:induction false} FallbackNeverFires(items: seq<Member>, chain: Chain)
    ensures |ChainGroup(items, chain)| <= |Candidates(items)|
  {
    if items != [] {
      FallbackNeverFires(items[..|items| - 1], chain);
    }
  }

  // ----------------------------------------------------------------------- branches

  function KeyOf(m: Member): Chain {
    if m.facts.chain.Some? then m.facts.chain.value else MAIN
  }

  function InsertKey(keys: seq<Chain>, key: Chain): seq<Chain> {
    if keys == [] then [key]
    else if key == keys[0] then keys
    else if key.place < keys[0].place then [key] + keys
    else [keys[0]] + InsertKey(keys[1..], key)
  }

  /** The branch keys of a path in ascending order. */
  function Keys(path: seq<Member>): seq<Chain> {
    if path == [] then [] else InsertKey(Keys(path[..|path| - 1]), KeyOf(path[|path| - 1]))
  }

  ghost predicate Ascending(keys: seq<Chain>) {
    forall i, j :: 0 <= i < j < |keys| ==> keys[i].place < keys[j].place
  }

  lemma {:induction false} InsertKeyFacts(keys: seq<Chain>, key: Chain)
    requires Ascending(keys)
    ensures Ascending(InsertKey(keys, key))
    ensures forall k :: k in InsertKey(keys, key) <==> k == key || k in keys
  {
    if keys != [] && keys[0].place < key.place {
      var rest := InsertKey(keys[1..], key);
      InsertKeyFacts(keys[1..], key);
      forall i | 0 <= i < |rest|
        ensures keys[0].place < rest[i].place
      {
        assert rest[i] in rest;
      }
      assert keys == [keys[0]] + keys[1..];
    }
  }

  lemma {:induction false} KeysFacts(path: seq<Member>)
    ensures Ascending(Keys(path))
    ensures forall i :: 0 <= i < |path| ==> KeyOf(path[i]) in Keys(path)
    ensures forall k :: k in Keys(path) ==> exists i :: 0 <= i < |path| && KeyOf(path[i]) == k
  {
    if path != [] {
      var front, last := path[..|path| - 1], path[|path| - 1];
      KeysFacts(front);
      InsertKeyFacts(Keys(front), KeyOf(last));
      assert forall i :: 0 <= i < |front| ==> front[i] == path[i];
      assert KeyOf(path[|path| - 1]) == KeyOf(last);
    }
  }

  function Group(path: seq<Member>, key: Chain): seq<Id> {
    if path == [] then []
    else
      var last := path[|path| - 1];
      Group(path[..|path| - 1], key) + if KeyOf(last) == key then [last.id] else []
  }

  lemma {:induction false} GroupMembers(path: seq<Member>, key: Chain)
    ensures forall i :: 0 <= i < |path| && KeyOf(path[i]) == key ==> path[i].id in Group(path, key)
    ensures forall id :: id in Group(path, key) ==>
            exists i :: 0 <= i < |path| && path[i].id == id && KeyOf(path[i]) == key
  {
    if path != [] {
      var front, last := path[..|path| - 1], path[|path| - 1];
      GroupMembers(front, key);
      assert forall i :: 0 <= i < |front| ==> front[i] == path[i];
      assert path[|path| - 1].id == last.id;
    }
  }

  datatype Branch = Branch(number: nat, key: Chain, members: seq<Id>)

  function Branches(path: seq<Member>): (r: seq<Branch>)
    ensures |r| == |Keys(path)|
    ensures forall i :: 0 <= i < |r| ==> r[i] == Branch(i + 1, Keys(path)[i], Group(path, Keys(path)[i]))
  {
    seq(|Keys(path)|, i requires 0 <= i < |Keys(path)| => Branch(i + 1, Keys(path)[i], Group(path, Keys(path)[i])))
  }

  function Reservoir(path: seq<Member>): seq<Branch> {
    if |Branches(path)| <= TRACE_MAX_BRANCHES then Branches(path) else Branches(path)[..TRACE_MAX_BRANCHES]
  }

  ghost predicate UniqueIds(path: seq<Member>) {
    forall i, j :: 0 <= i < j < |path| ==> path[i].id != path[j].id
  }

  ghost predicate InBranch(path: seq<Member>, id: Id, n: nat) {
    1 <= n <= |Keys(path)| && id in Branches(path)[n - 1].members
  }

  lemma InBranchIs(path: seq<Member>, i: nat, n: nat)
    requires UniqueIds(path) && i < |path| && 1 <= n <= |Keys(path)|
    ensures InBranch(path, path[i].id, n) <==> KeyOf(path[i]) == Keys(path)[n - 1]
  {
    GroupMembers(path, Keys(path)[n - 1]);
  }

  lemma InBranchIsOnPath(path: seq<Member>, id: Id, n: nat) returns (i: nat)
    requires InBranch(path, id, n)
    ensures i < |path| && path[i].id == id
  {
    GroupMembers(path, Keys(path)[n - 1]);
    i :| 0 <= i < |path| && path[i].id == id;
  }

  lemma SomeBranch(path: seq<Member>, i: nat) returns (n: nat)
    requires UniqueIds(path) && i < |path|
    ensures InBranch(path, path[i].id, n)
  {
    KeysFacts(path);
    var k :| 0 <= k < |Keys(path)| && Keys(path)[k] == KeyOf(path[i]);
    n := k + 1;
    InBranchIs(path, i, n);
  }

  lemma OneBranch(path: seq<Member>, id: Id, n: nat, m: nat)
    requires UniqueIds(path) && InBranch(path, id, n) && InBranch(path, id, m)
    ensures n == m
  {
    var i := InBranchIsOnPath(path, id, n);
    InBranchIs(path, i, n);
    InBranchIs(path, i, m);
    KeysFacts(path);
  }

  /** The branches partition the path: each memory is in exactly one of them, and they hold
      nothing else. */
  lemma BranchesPartition(path: seq<Member>, id: Id)
    requires UniqueIds(path)
    ensures (exists i :: 0 <= i < |path| && path[i].id == id) <==> exists n :: InBranch(path, id, n)
    ensures forall n, m :: InBranch(path, id, n) && InBranch(path, id, m) ==> n == m
  {
    if i: nat :| i < |path| && path[i].id == id {
      var n := SomeBranch(path, i);
    }
    if n :| InBranch(path, id, n) {
      var i := InBranchIsOnPath(path, id, n);
      forall m | InBranch(path, id, m)
        ensures n == m
      {
        OneBranch(path, id, n, m);
      }
    }
  }

  // ------------------------------------------------------------ branches on the heap

  method AssignRoles(items: seq<RuntimeMemory>)
    modifies (set m | m in items)`role, (set m | m in items)`order
    ensures forall i :: 0 <= i < |items| ==> HasRole(items[i])
  {
    for i := 0 to |items|
      invariant forall j :: 0 <= j < i ==> HasRole(items[j])
    {
      items[i].role := Some(AssemblyRole(items[i].facts, items[i].relations));
      items[i].order := Some(AssemblyOrder(items[i].role.value, items[i].rank));
    }
  }

  /** The memory has the role its facts and relations determine, and its place in the path. */
  predicate HasRole(m: RuntimeMemory)
    reads m`role, m`order, m`relations, m`rank
  {
    && m.role == Some(AssemblyRole(m.facts, m.relations))
    && m.order == Some(AssemblyOrder(AssemblyRole(m.facts, m.relations), m.rank))
  }

  /** The stages of a path: failures first, then what explains, decides and resolves them. */
  const STAGES: seq<Role> := [FailedAttempt, Diagnosis, DecisionPivot, SuccessfulResolution, CurrentReusableProcedure,
                              Caution, Context, RawEvidence]

  /** Where a rank stands; none, and 0, stand between 99 and 100. */
  function Standing(rank: Option<int>): real {
    if rank == None || rank.value == 0 then 99.5 else rank.value as real
  }

  /** Where two memories with assigned roles stand relative to each other in the path, for
      ranks that are at most 999: stage by stage, within a stage by rank, and then by title. */
  lemma PathOrderExactlyWhen(m: RuntimeMemory, n: RuntimeMemory, i: nat, j: nat)
    requires HasRole(m) && HasRole(n)
    requires i < |STAGES| && j < |STAGES| && m.role == Some(STAGES[i]) && n.role == Some(STAGES[j])
    requires (m.rank.Some? ==> 0 <= m.rank.value <= 999) && (n.rank.Some? ==> 0 <= n.rank.value <= 999)
    ensures NotAfter(Seen(m).key, Seen(n).key) <==>
              || i < j
              || (i == j && Standing(m.rank) < Standing(n.rank))
              || (i == j && Standing(m.rank) == Standing(n.rank) && m.facts.place <= n.facts.place)
  {
    StageOrder(i, m.rank);
    StageOrder(j, n.rank);
  }

  lemma StageOrder(i: nat, rank: Option<int>)
    requires i < |STAGES|
    ensures AssemblyOrder(STAGES[i], rank) == 1000 * (i + 2) + Or(rank, 99)
  {
  }

  method FindById(items: seq<RuntimeMemory>, id: Id) returns (found: Option<RuntimeMemory>)
    ensures found.None? ==> forall i :: 0 <= i < |items| ==> items[i].id != id
    ensures found.Some? ==> exists i :: 0 <= i < |items| && items[i] == found.value && items[i].id == id
                                        && forall j :: 0 <= j < i ==> items[j].id != id
  {
    for i := 0 to |items|
      invariant forall j :: 0 <= j < i ==> items[j].id != id
    {
      if items[i].id == id {
        return Some(items[i]);
      }
    }
    return None;
  }

  method TagBranch(members: seq<Id>, number: nat, items: seq<RuntimeMemory>)
    requires DistinctIds(items)
    modifies (set m | m in items)`branch
    ensures forall i :: 0 <= i < |items| ==>
              items[i].branch == if items[i].id in members then Some(number) else old(items[i].branch)
  {
    for k := 0 to |members|
      invariant forall i :: 0 <= i < |items| ==>
                  items[i].branch == if items[i].id in members[..k] then Some(number) else old(items[i].branch)
    {
      assert members[..k + 1] == members[..k] + [members[k]];
      var memory := FindById(items, members[k]);
      if memory.Some? {
        memory.value.branch := Some(number);
      }
    }
    assert members[..|members|] == members;
  }

  ghost predicate Grouped(path: seq<Member>, keys: seq<Chain>, groups: map<Chain, seq<Id>>) {
    && keys == Keys(path)
    && forall k :: (k in keys <==> k in groups) && (k in groups ==> groups[k] == Group(path, k))
  }

  lemma GroupAndKeys(path: seq<Member>, i: nat, k: Chain)
    requires i < |path|
    ensures Keys(path[..i + 1]) == InsertKey(Keys(path[..i]), KeyOf(path[i]))
    ensures k in Keys(path[..i + 1]) <==> k == KeyOf(path[i]) || k in Keys(path[..i])
    ensures Group(path[..i + 1], k) == Group(path[..i], k) + if KeyOf(path[i]) == k then [path[i].id] else []
  {
    assert path[..i + 1][..i] == path[..i];
    KeysFacts(path[..i]);
    InsertKeyFacts(Keys(path[..i]), KeyOf(path[i]));
  }

  lemma NoGroup(path: seq<Member>, k: Chain)
    requires k !in Keys(path)
    ensures Group(path, k) == []
  {
    assert Group(path, k) == [] || Group(path, k)[0] in Group(path, k);
    KeysFacts(path);
    GroupMembers(path, k);
  }

  lemma GroupStep(path: seq<Member>, i: nat, keys: seq<Chain>, groups: map<Chain, seq<Id>>)
    requires i < |path| && Grouped(path[..i], keys, groups)
    ensures var key := KeyOf(path[i]);
            Grouped(path[..i + 1], InsertKey(keys, key),
                    groups[key := (if key in groups then groups[key] else []) + [path[i].id]])
  {
    var key := KeyOf(path[i]);
    var more := groups[key := (if key in groups then groups[key] else []) + [path[i].id]];
    GroupAndKeys(path, i, key);
    forall k
      ensures (k in InsertKey(keys, key) <==> k in more) && (k in more ==> more[k] == Group(path[..i + 1], k))
    {
      GroupAndKeys(path, i, k);
      if k !in keys {
        NoGroup(path[..i], k);
      }
    }
  }

  method GroupPath(path: seq<Member>) returns (keys: seq<Chain>, groups: map<Chain, seq<Id>>)
    ensures Grouped(path, keys, groups)
  {
    keys, groups := [], map[];
    for i := 0 to |path|
      invariant Grouped(path[..i], keys, groups)
    {
      GroupStep(path, i, keys, groups);
      var key := KeyOf(path[i]);
      keys := InsertKey(keys, key);
      groups := groups[key := (if key in groups then groups[key] else []) + [path[i].id]];
    }
    assert path[..|path|] == path;
  }

  ghost function BranchFields(items: seq<RuntimeMemory>): (r: seq<Option<nat>>)
    reads items
    ensures |r| == |items| && forall i :: 0 <= i < |items| ==> r[i] == items[i].branch
  {
    if items == [] then [] else BranchFields(items[..|items| - 1]) + [items[|items| - 1].branch]
  }

  ghost predicate InSomeBranch(path: seq<Member>, id: Id, done: nat) {
    exists n: nat :: n <= done && InBranch(path, id, n)
  }

  /** The branches up to `done` have been written to the memories' `branch` fields. */
  ghost predicate Tagged(path: seq<Member>, items: seq<RuntimeMemory>, before: seq<Option<nat>>, done: nat)
    requires |before| == |items|
    reads items
  {
    && (forall i, n: nat :: 0 <= i < |items| && n <= done && InBranch(path, items[i].id, n) ==>
        items[i].branch == Some(n))
    && forall i :: 0 <= i < |items| && !InSomeBranch(path, items[i].id, done) ==> items[i].branch == before[i]
  }

  lemma OnlyInNext(path: seq<Member>, i: nat, members: seq<Id>)
    requires UniqueIds(path) && i < |Keys(path)| && members == Branches(path)[i].members
    ensures forall id :: id in members <==> InBranch(path, id, i + 1)
    ensures forall id, n: nat :: InBranch(path, id, n) && n != i + 1 ==> id !in members
  {
    forall id, n: nat | InBranch(path, id, n) && id in members
      ensures n == i + 1
    {
      OneBranch(path, id, n, i + 1);
    }
  }

  method TagNext(path: seq<Member>, i: nat, members: seq<Id>, items: seq<RuntimeMemory>, ghost before: seq<Option<nat>>)
    requires DistinctIds(items) && UniqueIds(path) && i < |Keys(path)| && members == Branches(path)[i].members
    requires |before| == |items| && Tagged(path, items, before, i)
    modifies (set m | m in items)`branch
    ensures Tagged(path, items, before, i + 1)
  {
    OnlyInNext(path, i, members);
    TagBranch(members, i + 1, items);
    forall j, n: nat | 0 <= j < |items| && n <= i + 1 && InBranch(path, items[j].id, n)
      ensures items[j].branch == Some(n)
    {
      assert n == i + 1 <==> items[j].id in members;
    }
    forall j | 0 <= j < |items| && !InSomeBranch(path, items[j].id, i + 1)
      ensures items[j].branch == before[j]
    {
      assert !InBranch(path, items[j].id, i + 1);
    }
  }

  lemma BranchesNext(path: seq<Member>, i: nat)
    requires i < |Keys(path)|
    ensures Branches(path)[..i + 1] == Branches(path)[..i] + [Branch(i + 1, Keys(path)[i], Group(path, Keys(path)[i]))]
  {
  }

  /** Splits the path into branches, numbers them in key order, writes each memory's branch
      number to it and keeps the first three branches. */
  method BuildReservoir(path: seq<Member>, items: seq<RuntimeMemory>) returns (reservoir: seq<Branch>)
    requires DistinctIds(items) && UniqueIds(path)
    modifies (set m | m in items)`branch
    ensures reservoir == Reservoir(path)
    ensures Tagged(path, items, old(BranchFields(items)), |Keys(path)|)
  {
    var keys, groups := GroupPath(path);
    var branches := [];
    ghost var before := BranchFields(items);
    for i := 0 to |keys|
      invariant branches == Branches(path)[..i] && Tagged(path, items, before, i)
    {
      TagNext(path, i, groups[keys[i]], items, before);
      BranchesNext(path, i);
      branches := branches + [Branch(i + 1, keys[i], groups[keys[i]])];
    }
    reservoir := if |branches| <= TRACE_MAX_BRANCHES then branches else branches[..TRACE_MAX_BRANCHES];
  }

  // --------------------------------------------------------------------- assessment

  /** A finalized packet: the six slots and what else the assessment looks at.
      `flagged` holds the ids in verification_needed, `budgetLimited` is the assembly note of
      that name, and `factual` says that the intent of the request is factual. */
  datatype Packet = Packet(slots: seq<seq<Member>>, archive: bool, contradictions: nat, flagged: set<Id>,
                           budgetLimited: bool, historical: bool, factual: bool, path: seq<Member>) {
    function Primary(): seq<Member> {
      if slots == [] then [] else slots[0]
    }

    function Items(): seq<Member> {
      Flat(slots)
    }

    ghost predicate Valid() {
      |slots| == SLOTS && UniqueIds(Items()) && IsPath(path, Items())
    }
  }

  ghost predicate SeesSlots(seen: seq<seq<Member>>, slots: seq<seq<RuntimeMemory>>)
    reads Objects(slots)
  {
    |seen| == |slots| && forall k :: 0 <= k < |slots| ==> SeesAll(seen[k], slots[k])
  }

  ghost predicate SeesAll(seen: seq<Member>, ms: seq<RuntimeMemory>)
    reads ms
  {
    |seen| == |ms| && forall i :: 0 <= i < |ms| ==> seen[i] == Seen(ms[i])
  }

  lemma {:induction false} SeesFlat(seen: seq<seq<Member>>, slots: seq<seq<RuntimeMemory>>)
    requires SeesSlots(seen, slots)
    ensures SeesAll(Flat(seen), Flat(slots))
    decreases |slots|
  {
    if slots != [] {
      SeesFlat(seen[..|seen| - 1], slots[..|slots| - 1]);
    }
  }

  /** What deduplication leaves is fit for the results below: the ids are unique. */
  lemma DedupedIsValid(slots: seq<seq<RuntimeMemory>>, kept: seq<seq<RuntimeMemory>>, p: Packet)
    requires |slots| == SLOTS && IsDeduped(slots, kept) && SeesSlots(p.slots, kept) && IsPath(p.path, p.Items())
    ensures p.Valid()
  {
    DedupedIds(slots, kept);
    SeesFlat(p.slots, kept);
  }

  datatype Retrieval = SufficientCurrent | SufficientHistorical | PartlySufficient | InsufficientContested
                     | InsufficientStale | InsufficientNoHit {
    predicate Insufficient() {
      InsufficientContested? || InsufficientStale? || InsufficientNoHit?
    }
  }

  datatype Completion = CompletePath | SuccessOnly | PartialChain | Overabundant | Fragmentary

  datatype Threshold = NoThreshold | ContradictionBlocksUse | ArchiveOnlyActionable | BudgetTrimmedPrimary
                     | MissingRequiredRole | NoAnchor

  datatype Recommendation = Reuse | ReuseWithVerification | ResearchFresh

  predicate Warned(m: Member, flagged: set<Id>) {
    m.id in flagged || m.facts.freshness == Stale || m.facts.freshness == Suspect
    || m.facts.freshness == Freshness.Contested
    || m.facts.lifecycle == Archived || m.facts.lifecycle == Lifecycle.Contested
  }

  predicate AnyWarned(p: Packet) {
    exists i :: 0 <= i < |p.Items()| && Warned(p.Items()[i], p.flagged)
  }

  predicate AnyFreshness(ms: seq<Member>, freshness: Freshness) {
    exists i :: 0 <= i < |ms| && ms[i].facts.freshness == freshness
  }

  predicate AllFreshness(ms: seq<Member>, freshness: Freshness) {
    forall i :: 0 <= i < |ms| ==> ms[i].facts.freshness == freshness
  }

  predicate AllSubstantial(ms: seq<Member>) {
    forall i :: 0 <= i < |ms| ==> ms[i].facts.substantial
  }

  predicate PlaysRole(ms: seq<Member>, roles: set<Role>) {
    exists i :: 0 <= i < |ms| && ms[i].role in roles
  }

  const SUCCESSES := {SuccessfulResolution, CurrentReusableProcedure}

  function RetrievalState(p: Packet): Retrieval {
    if p.contradictions > 0 then InsufficientContested
    else if p.Primary() == [] then (if p.archive then PartlySufficient else InsufficientNoHit)
    else if p.historical then SufficientHistorical
    else if AllFreshness(p.Primary(), Stale) then InsufficientStale
    else if AnyFreshness(p.Primary(), Freshness.Contested) then InsufficientContested
    else if AnyFreshness(p.Primary(), Suspect) || !AllSubstantial(p.Primary()) || AnyWarned(p) then PartlySufficient
    else SufficientCurrent
  }

  predicate MissesRole(path: seq<Member>) {
    || (PlaysRole(path, {FailedAttempt}) && !PlaysRole(path, {Diagnosis, DecisionPivot}))
    || (PlaysRole(path, {FailedAttempt}) && !PlaysRole(path, SUCCESSES))
    || (PlaysRole(path, SUCCESSES) && !PlaysRole(path, {FailedAttempt, DecisionPivot, Diagnosis, Context}))
  }

  function CompletionState(p: Packet): Completion {
    if p.Primary() == [] && !p.archive then Fragmentary
    else if |Reservoir(p.path)| > 1 then Overabundant
    else if p.factual then (if p.Primary() != [] then CompletePath else Fragmentary)
    else if p.path == [] then (if PlaysRole(p.Primary(), SUCCESSES) then SuccessOnly else Fragmentary)
    else if MissesRole(p.path) then PartialChain
    else if PlaysRole(p.path, SUCCESSES) then
      (if PlaysRole(p.path, {FailedAttempt, Diagnosis, DecisionPivot, Caution, Context}) then CompletePath
       else SuccessOnly)
    else if |p.path| >= 2 then PartialChain
    else Fragmentary
  }

  function FreshPipelineThreshold(p: Packet): Threshold {
    if RetrievalState(p) == InsufficientContested then ContradictionBlocksUse
    else if p.archive && p.Primary() == [] && CompletionState(p) != CompletePath then ArchiveOnlyActionable
    else if p.budgetLimited && p.Primary() == [] then BudgetTrimmedPrimary
    else if MissesRole(p.path) && (CompletionState(p) == PartialChain || CompletionState(p) == Fragmentary)
    then MissingRequiredRole
    else if RetrievalState(p) == InsufficientNoHit then NoAnchor
    else NoThreshold
  }

  function Recommend(p: Packet): Recommendation {
    if FreshPipelineThreshold(p) != NoThreshold || RetrievalState(p).Insufficient() then ResearchFresh
    else if RetrievalState(p) == SufficientHistorical || RetrievalState(p) == PartlySufficient
    then ReuseWithVerification
    else if CompletionState(p) == PartialChain || CompletionState(p) == Fragmentary then ReuseWithVerification
    else Reuse
  }

  // What the policy amounts to, by the roles that occur.

  function RolesOn(ms: seq<Member>): set<Role> {
    set i | 0 <= i < |ms| :: ms[i].role
  }

  predicate Failed(roles: set<Role>) {
    FailedAttempt in roles
  }

  predicate Explained(roles: set<Role>) {
    Diagnosis in roles || DecisionPivot in roles
  }

  predicate Solved(roles: set<Role>) {
    SuccessfulResolution in roles || CurrentReusableProcedure in roles
  }

  /** A success that stands on its own. */
  predicate Bare(roles: set<Role>) {
    Solved(roles) && !Failed(roles) && !Explained(roles) && Context !in roles
  }

  /** A failure is left without an explanation or without a success, or a success is bare. */
  predicate Broken(roles: set<Role>) {
    (Failed(roles) && !(Explained(roles) && Solved(roles))) || Bare(roles)
  }

  lemma PlaysRoleIs(ms: seq<Member>, roles: set<Role>)
    ensures PlaysRole(ms, roles) <==> RolesOn(ms) * roles != {}
  {
    if PlaysRole(ms, roles) {
      var i :| 0 <= i < |ms| && ms[i].role in roles;
      assert ms[i].role in RolesOn(ms) * roles;
    }
    if RolesOn(ms) * roles != {} {
      var role :| role in RolesOn(ms) * roles;
      var i :| 0 <= i < |ms| && ms[i].role == role;
    }
  }

  lemma RolesOfPath(ms: seq<Member>)
    ensures PlaysRole(ms, SUCCESSES) <==> Solved(RolesOn(ms))
    ensures MissesRole(ms) <==> Broken(RolesOn(ms))
    ensures PlaysRole(ms, {FailedAttempt, Diagnosis, DecisionPivot, Caution, Context}) <==>
              Failed(RolesOn(ms)) || Explained(RolesOn(ms)) || Caution in RolesOn(ms) || Context in RolesOn(ms)
  {
    PlaysRoleIs(ms, SUCCESSES);
    PlaysRoleIs(ms, {FailedAttempt});
    PlaysRoleIs(ms, {Diagnosis, DecisionPivot});
    PlaysRoleIs(ms, {FailedAttempt, DecisionPivot, Diagnosis, Context});
    PlaysRoleIs(ms, {FailedAttempt, Diagnosis, DecisionPivot, Caution, Context});
    InOneOf(RolesOn(ms));
  }

  lemma InOneOf(r: set<Role>)
    ensures r * SUCCESSES != {} <==> SuccessfulResolution in r || CurrentReusableProcedure in r
    ensures r * {FailedAttempt} != {} <==> FailedAttempt in r
    ensures r * {Diagnosis, DecisionPivot} != {} <==> Diagnosis in r || DecisionPivot in r
    ensures r * {FailedAttempt, DecisionPivot, Diagnosis, Context} != {} <==>
              FailedAttempt in r || Diagnosis in r || DecisionPivot in r || Context in r
    ensures r * {FailedAttempt, Diagnosis, DecisionPivot, Caution, Context} != {} <==>
              FailedAttempt in r || Diagnosis in r || DecisionPivot in r || Caution in r || Context in r
  {
    assert forall role, set' :: role in r && role in set' ==> role in r * set';
  }

  /** The path leads to a success: over several chains whatever their roles, and over one
      only if it has a success that is not bare and every failure on it is explained. */
  predicate LeadsToSuccess(p: Packet) {
    || |Keys(p.path)| > 1
    || p.factual
    || (if p.path == [] then Solved(RolesOn(p.Primary())) else Solved(RolesOn(p.path)) && !Broken(RolesOn(p.path)))
  }

  lemma {:induction false} FlatHolds<T>(slots: seq<seq<T>>, k: nat, i: nat) returns (at: nat)
    requires k < |slots| && i < |slots[k]|
    ensures at < |Flat(slots)| && Flat(slots)[at] == slots[k][i]
  {
    var front := slots[..|slots| - 1];
    if k == |front| {
      at := |Flat(front)| + i;
    } else {
      at := FlatHolds(front, k, i);
    }
  }

  lemma PrimaryNotWarned(p: Packet, i: nat)
    requires !AnyWarned(p) && i < |p.Primary()|
    ensures !Warned(p.Primary()[i], p.flagged)
  {
    var at := FlatHolds(p.slots, 0, i);
    assert !Warned(p.Items()[at], p.flagged);
  }

  /** Fresh or of unstated freshness, active or of unknown state, and not flagged. */
  predicate Sound(m: Member, flagged: set<Id>) {
    m.facts.freshness in {NotStated, Fresh} && m.facts.lifecycle in {Unknown, Active} && m.id !in flagged
  }

  /** When a packet is recommended for reuse. */
  lemma ReuseExactlyWhen(p: Packet)
    ensures Recommend(p) == Reuse <==>
            && p.contradictions == 0 && p.Primary() != [] && !p.historical
            && (forall m :: m in p.Primary() ==> m.facts.substantial)
            && (forall m :: m in p.Items() ==> Sound(m, p.flagged))
            && LeadsToSuccess(p)
  {
    NoneWarned(p);
    EachSubstantial(p.Primary());
    if !AnyWarned(p) {
      PrimarySound(p);
    }
    ReuseByStates(p);
    if p.Primary() != [] {
      CompletionByRoles(p);
    }
  }

  lemma EachSubstantial(ms: seq<Member>)
    ensures AllSubstantial(ms) <==> forall m :: m in ms ==> m.facts.substantial
  {
    assert AllSubstantial(ms) ==> forall m :: m in ms ==> m.facts.substantial;
  }

  lemma PrimarySound(p: Packet)
    requires !AnyWarned(p)
    ensures !AnyFreshness(p.Primary(), Freshness.Contested) && !AnyFreshness(p.Primary(), Suspect)
    ensures p.Primary() != [] ==> !AllFreshness(p.Primary(), Stale)
  {
    forall i | 0 <= i < |p.Primary()|
      ensures !Warned(p.Primary()[i], p.flagged)
    {
      PrimaryNotWarned(p, i);
    }
    if p.Primary() != [] {
      assert p.Primary()[0].facts.freshness != Stale;
    }
  }

  /** The completion states that a recommendation of reuse admits. */
  predicate Completes(p: Packet) {
    CompletionState(p) != PartialChain && CompletionState(p) != Fragmentary
  }

  lemma ReuseByStates(p: Packet)
    ensures Recommend(p) == Reuse <==> RetrievalState(p) == SufficientCurrent && Completes(p)
  {
  }

  lemma CompletionByRoles(p: Packet)
    requires p.Primary() != []
    ensures Completes(p) <==> LeadsToSuccess(p)
  {
    RolesOfPath(p.path);
    RolesOfPath(p.Primary());
    KeysFacts(p.path);
  }

  lemma NoneWarned(p: Packet)
    ensures !AnyWarned(p) <==> forall m :: m in p.Items() ==> Sound(m, p.flagged)
  {
    forall m
      ensures !Warned(m, p.flagged) <==> Sound(m, p.flagged)
    {
    }
    if !AnyWarned(p) {
      forall m | m in p.Items()
        ensures Sound(m, p.flagged)
      {
        var i :| 0 <= i < |p.Items()| && p.Items()[i] == m;
      }
    } else {
      var i :| 0 <= i < |p.Items()| && Warned(p.Items()[i], p.flagged);
      assert p.Items()[i] in p.Items();
    }
  }

  /** When fresh research is recommended; in all other cases reuse needs verification. A
      single chain is not enough when it is broken; without a primary memory it must also
      have a success, beside archive context and with no budget cut. */
  lemma FreshResearchExactlyWhen(p: Packet)
    ensures var roles, oneChain := RolesOn(p.path), |Keys(p.path)| <= 1 && !p.factual;
            Recommend(p) == ResearchFresh <==>
            || p.contradictions > 0
            || (oneChain && Broken(roles))
            || (p.Primary() == [] && !(p.archive && !p.budgetLimited && oneChain && Solved(roles)))
            || (p.Primary() != [] && !p.historical
                && ((forall m :: m in p.Primary() ==> m.facts.freshness == Stale)
                    || exists m :: m in p.Primary() && m.facts.freshness == Freshness.Contested))
  {
    RolesOfPath(p.path);
    RolesOfPath(p.Primary());
    assert AllFreshness(p.Primary(), Stale) <==> forall m :: m in p.Primary() ==> m.facts.freshness == Stale;
    ContestedIs(p.Primary());
    if p.path == [] {
      assert RolesOn(p.path) == {};
    }
  }

  lemma ContestedIs(ms: seq<Member>)
    ensures AnyFreshness(ms, Freshness.Contested) <==> exists m :: m in ms && m.facts.freshness == Freshness.Contested
  {
    if AnyFreshness(ms, Freshness.Contested) {
      var i :| 0 <= i < |ms| && ms[i].facts.freshness == Freshness.Contested;
      assert ms[i] in ms;
    }
  }

  /** In particular, over one chain: a failure without a diagnosis or decision beside it or
      without a success, or a success on its own, always sends the question back. */
  lemma BrokenChainIsResearched(p: Packet)
    requires !p.factual && |Keys(p.path)| <= 1 && p.path != []
    ensures (exists m :: m in p.path && m.role == FailedAttempt)
            && ((forall m :: m in p.path ==> m.role != Diagnosis && m.role != DecisionPivot)
                || forall m :: m in p.path ==> m.role != SuccessfulResolution && m.role != CurrentReusableProcedure)
            ==> Recommend(p) == ResearchFresh
    ensures (forall m :: m in p.path ==>
               m.role in {SuccessfulResolution, CurrentReusableProcedure, Caution, RawEvidence})
            && (exists m :: m in p.path && m.role in {SuccessfulResolution, CurrentReusableProcedure})
            ==> Recommend(p) == ResearchFresh
  {
    FreshResearchExactlyWhen(p);
    forall role
      ensures role in RolesOn(p.path) <==> exists m :: m in p.path && m.role == role
    {
      RoleOccurs(p.path, role);
    }
  }

  lemma RoleOccurs(ms: seq<Member>, role: Role)
    ensures role in RolesOn(ms) <==> exists m :: m in ms && m.role == role
  {
    if role in RolesOn(ms) {
      var i :| 0 <= i < |ms| && ms[i].role == role;
      assert ms[i] in ms;
    }
    if m :| m in ms && m.role == role {
      var i :| 0 <= i < |ms| && ms[i] == m;
    }
  }

  /** The completion state by what there is and which roles occur: over several chains the
      roles do not matter, over one chain it takes an unbroken success, and without a path a
      success among the primary memories. */
  lemma CompletionExactlyWhen(p: Packet)
    requires IsPath(p.path, p.Items())
    ensures var some := p.Primary() != [] || p.archive;
            var one := some && |Keys(p.path)| <= 1;
            var succeeds := Solved(RolesOn(p.path)) && !Broken(RolesOn(p.path));
            var solved := Solved(RolesOn(p.Primary()));
            && (CompletionState(p) == Overabundant <==> some && |Keys(p.path)| > 1)
            && (CompletionState(p) == CompletePath <==>
                one && if p.factual then p.Primary() != [] else p.path != [] && succeeds)
            && (CompletionState(p) == PartialChain <==> one && !p.factual && p.path != [] && !succeeds)
            && (CompletionState(p) == SuccessOnly <==> one && !p.factual && p.path == [] && solved)
            && (CompletionState(p) == Fragmentary <==>
                !some || (one && if p.factual then p.Primary() == [] else p.path == [] && !solved))
  {
    RolesOfPath(p.path);
    RolesOfPath(p.Primary());
    PathHasTwo(p.path, p.Items());
  }

  lemma PathHasTwo(path: seq<Member>, items: seq<Member>)
    requires IsPath(path, items)
    ensures path == [] || |path| >= 2
  {
    if path != [] {
      assert |multiset(path)| == |multiset(Candidates(items))|;
    }
  }

  /** The reason that is given, the first that applies: a contradiction, archive context alone
      without a complete path, a primary memory lost to the budget, a missing role, nothing. */
  lemma ThresholdExactlyWhen(p: Packet)
    requires IsPath(p.path, p.Items())
    ensures var contested := p.contradictions > 0
                             || (p.Primary() != [] && !p.historical && !AllFreshness(p.Primary(), Stale)
                                 && exists m :: m in p.Primary() && m.facts.freshness == Freshness.Contested);
            var archiveOnly := p.Primary() == [] && p.archive && CompletionState(p) != CompletePath;
            var trimmed := p.Primary() == [] && p.budgetLimited;
            var missing := |Keys(p.path)| <= 1 && !p.factual && Broken(RolesOn(p.path));
            var reason := FreshPipelineThreshold(p);
            && (reason == ContradictionBlocksUse <==> contested)
            && (reason == ArchiveOnlyActionable <==> !contested && archiveOnly)
            && (reason == BudgetTrimmedPrimary <==> !contested && !archiveOnly && trimmed)
            && (reason == MissingRequiredRole ==> Broken(RolesOn(p.path)))
            && (!contested && !archiveOnly && !trimmed && missing ==> reason == MissingRequiredRole)
            && (reason == NoAnchor ==> p.Primary() == [] && !p.archive)
            && (p.Primary() == [] && !p.archive ==> reason != NoThreshold)
  {
    RolesOfPath(p.path);
    ContestedIs(p.Primary());
    PathHasTwo(p.path, p.Items());
    if p.path == [] {
      assert RolesOn(p.path) == {};
    }
  }

  /** Reuse is only recommended on a primary memory, without contradictions, and with
      nothing stale, suspect, contested, archived or flagged in any of the six slots. */
  lemma ReuseIsSafe(p: Packet, k: nat, i: nat)
    requires Recommend(p) == Reuse && k < |p.slots| && i < |p.slots[k]|
    ensures p.Primary() != [] && p.contradictions == 0
    ensures Sound(p.slots[k][i], p.flagged)
  {
    ReuseExactlyWhen(p);
    var at := FlatHolds(p.slots, k, i);
    assert p.Items()[at] in p.Items();
  }

  /** A path that succeeds without context is always reported as missing a role, so
      "success only" is left to packets without a path. */
  lemma SuccessOnlyMeansNoPath(p: Packet)
    requires CompletionState(p) == SuccessOnly
    ensures p.path == [] && Solved(RolesOn(p.Primary()))
  {
    RolesOfPath(p.path);
    RolesOfPath(p.Primary());
  }

  // ----------------------------------------------------------------------- emission

  function Selected(p: Packet): seq<nat> {
    if RetrievalState(p).Insufficient() || CompletionState(p) == Fragmentary || Reservoir(p.path) == [] then [] else [1]
  }

  /** The deferred branches of the assessment: those of the reservoir that are not selected. */
  function DeferredNumbers(p: Packet): (r: set<nat>)
    ensures forall n :: n in r <==> 1 <= n <= |Reservoir(p.path)| && n !in Selected(p)
  {
    set n | 1 <= n <= |Reservoir(p.path)| && n !in Selected(p)
  }

  /** The emission filter of one memory; `branch` is the memory's branch field. */
  predicate Included(selected: seq<nat>, branch: Option<nat>) {
    selected == [] || branch.None? || branch.value in selected
  }

  ghost predicate InDeferredContext(p: Packet, id: Id) {
    exists i :: 0 <= i < |Reservoir(p.path)| && Reservoir(p.path)[i].number in DeferredNumbers(p)
                && id in Reservoir(p.path)[i].members
  }

  /** The branch fields as `BuildReservoir` leaves them on memories that had none. */
  ghost predicate BranchesAssigned(p: Packet, branchOf: map<Id, Option<nat>>) {
    forall i :: 0 <= i < |p.Items()| ==>
      var id := p.Items()[i].id;
      && id in branchOf
      && (forall n: nat :: InBranch(p.path, id, n) ==> branchOf[id] == Some(n))
      && (!InSomeBranch(p.path, id, |Keys(p.path)|) ==> branchOf[id] == None)
  }

  /** That is indeed how `BuildReservoir` leaves them. */
  lemma TaggedIsAssigned(p: Packet, items: seq<RuntimeMemory>, before: seq<Option<nat>>, branchOf: map<Id, Option<nat>>)
    requires |before| == |items| == |p.Items()| && Tagged(p.path, items, before, |Keys(p.path)|)
    requires forall i :: 0 <= i < |items| ==>
               && before[i] == None && p.Items()[i] == Seen(items[i])
               && items[i].id in branchOf && branchOf[items[i].id] == items[i].branch
    ensures BranchesAssigned(p, branchOf)
  {
    forall i | 0 <= i < |p.Items()|
      ensures var id := p.Items()[i].id;
              && id in branchOf
              && (forall n: nat :: InBranch(p.path, id, n) ==> branchOf[id] == Some(n))
              && (!InSomeBranch(p.path, id, |Keys(p.path)|) ==> branchOf[id] == None)
    {
      assert p.Items()[i].id == items[i].id;
    }
  }

  /** What is emitted as the selected packet: the full records of the memories that pass the
      filter, slot by slot, and the functional path as it stands. */
  datatype View = View(slots: seq<seq<Member>>, path: seq<Member>)

  function BranchField(branchOf: map<Id, Option<nat>>, id: Id): Option<nat> {
    if id in branchOf then branchOf[id] else None
  }

  function FilterSlot(slot: seq<Member>, selected: seq<nat>, branchOf: map<Id, Option<nat>>): seq<Member> {
    if slot == [] then []
    else
      var last := slot[|slot| - 1];
      FilterSlot(slot[..|slot| - 1], selected, branchOf)
      + if Included(selected, BranchField(branchOf, last.id)) then [last] else []
  }

  function SelectedView(p: Packet, branchOf: map<Id, Option<nat>>): (v: View)
    ensures |v.slots| == |p.slots|
    ensures forall k :: 0 <= k < |p.slots| ==> v.slots[k] == FilterSlot(p.slots[k], Selected(p), branchOf)
  {
    View(seq(|p.slots|, k requires 0 <= k < |p.slots| => FilterSlot(p.slots[k], Selected(p), branchOf)), p.path)
  }

  /** Some slot of the view holds a record of that id. */
  ghost predicate InSlots(slots: seq<seq<Member>>, id: Id) {
    exists k, i :: 0 <= k < |slots| && 0 <= i < |slots[k]| && slots[k][i].id == id
  }

  ghost predicate OnPath(path: seq<Member>, id: Id) {
    exists i :: 0 <= i < |path| && path[i].id == id
  }

  lemma {:induction false} FilterSlotHas(slot: seq<Member>, selected: seq<nat>, branchOf: map<Id, Option<nat>>, id: Id)
    ensures OnPath(FilterSlot(slot, selected, branchOf), id) <==>
              OnPath(slot, id) && Included(selected, BranchField(branchOf, id))
  {
    if slot != [] {
      var front, last := slot[..|slot| - 1], slot[|slot| - 1];
      FilterSlotHas(front, selected, branchOf, id);
      OnPathSnoc(front, last, id);
      OnPathSnoc(FilterSlot(front, selected, branchOf), last, id);
      assert slot == front + [last];
      assert FilterSlot(front, selected, branchOf) + [] == FilterSlot(front, selected, branchOf);
    }
  }

  lemma OnPathSnoc(front: seq<Member>, last: Member, id: Id)
    ensures OnPath(front + [last], id) <==> OnPath(front, id) || last.id == id
  {
    if OnPath(front, id) {
      var i :| 0 <= i < |front| && front[i].id == id;
      assert (front + [last])[i].id == id;
    }
    assert (front + [last])[|front|] == last;
  }

  lemma ViewHas(p: Packet, branchOf: map<Id, Option<nat>>, id: Id)
    ensures InSlots(SelectedView(p, branchOf).slots, id) <==>
              InSlots(p.slots, id) && Included(Selected(p), BranchField(branchOf, id))
  {
    var view := SelectedView(p, branchOf).slots;
    if InSlots(view, id) {
      var k, i :| 0 <= k < |view| && 0 <= i < |view[k]| && view[k][i].id == id;
      FilterSlotHas(p.slots[k], Selected(p), branchOf, id);
    }
    if InSlots(p.slots, id) && Included(Selected(p), BranchField(branchOf, id)) {
      var k, i :| 0 <= k < |p.slots| && 0 <= i < |p.slots[k]| && p.slots[k][i].id == id;
      FilterSlotHas(p.slots[k], Selected(p), branchOf, id);
    }
  }

  lemma ItemsAreInSlots(slots: seq<seq<Member>>, id: Id)
    ensures OnPath(Flat(slots), id) <==> InSlots(slots, id)
  {
    FlatMembers(slots);
    if OnPath(Flat(slots), id) {
      var i :| 0 <= i < |Flat(slots)| && Flat(slots)[i].id == id;
      assert Flat(slots)[i] in Flat(slots);
      var k :| 0 <= k < |slots| && Flat(slots)[i] in slots[k];
      var j :| 0 <= j < |slots[k]| && slots[k][j] == Flat(slots)[i];
    }
    if InSlots(slots, id) {
      var k, i :| 0 <= k < |slots| && 0 <= i < |slots[k]| && slots[k][i].id == id;
      assert slots[k][i] in Flat(slots);
      var j :| 0 <= j < |Flat(slots)| && Flat(slots)[j] == slots[k][i];
    }
  }

  lemma InReservoirBranch(p: Packet, id: Id, n: nat)
    requires UniqueIds(p.path) && InBranch(p.path, id, n) && InDeferredContext(p, id)
    ensures n in DeferredNumbers(p)
  {
    var i :| 0 <= i < |Reservoir(p.path)| && Reservoir(p.path)[i].number in DeferredNumbers(p)
             && id in Reservoir(p.path)[i].members;
    assert InBranch(p.path, id, i + 1);
    OneBranch(p.path, id, n, i + 1);
  }

  lemma DeferredMembers(p: Packet, id: Id, n: nat)
    requires UniqueIds(p.path) && InBranch(p.path, id, n) && Selected(p) == [1]
    ensures InDeferredContext(p, id) <==> 1 < n <= TRACE_MAX_BRANCHES
  {
    if InDeferredContext(p, id) {
      InReservoirBranch(p, id, n);
    }
    if 1 < n <= TRACE_MAX_BRANCHES {
      assert Reservoir(p.path)[n - 1].number == n;
    }
  }

  /** A memory's branch field is the number of its branch, if it is on the path. */
  lemma BranchFieldIs(p: Packet, branchOf: map<Id, Option<nat>>, i: nat, n: nat)
    requires UniqueIds(p.path) && BranchesAssigned(p, branchOf) && i < |p.Items()|
    ensures InBranch(p.path, p.Items()[i].id, n) <==>
              OnPath(p.path, p.Items()[i].id) && BranchField(branchOf, p.Items()[i].id) == Some(n)
  {
    var id := p.Items()[i].id;
    BranchesPartition(p.path, id);
    if m: nat :| InBranch(p.path, id, m) {
      assert branchOf[id] == Some(m);
    }
  }

  /** The full record of a memory is dropped from the view exactly when a branch is selected
      and the memory is on another one. */
  lemma RecordDroppedExactlyWhen(p: Packet, branchOf: map<Id, Option<nat>>, i: nat)
    requires UniqueIds(p.path) && BranchesAssigned(p, branchOf) && i < |p.Items()|
    ensures var id := p.Items()[i].id;
            !InSlots(SelectedView(p, branchOf).slots, id) <==>
            Selected(p) != [] && exists n: nat :: InBranch(p.path, id, n) && n !in Selected(p)
  {
    var id := p.Items()[i].id;
    ViewHas(p, branchOf, id);
    ItemsAreInSlots(p.slots, id);
    assert OnPath(p.Items(), id);
    BranchesPartition(p.path, id);
    if n: nat :| InBranch(p.path, id, n) {
      BranchFieldIs(p, branchOf, i, n);
      forall m: nat | InBranch(p.path, id, m)
        ensures m == n
      {
      }
    } else {
      assert !InSomeBranch(p.path, id, |Keys(p.path)|);
    }
  }

  /** No id is ever lost: the view holds the memory's record or its entry in the path. */
  lemma NoIdIsLost(p: Packet, branchOf: map<Id, Option<nat>>, i: nat)
    requires UniqueIds(p.path) && BranchesAssigned(p, branchOf) && i < |p.Items()|
    ensures var view, id := SelectedView(p, branchOf), p.Items()[i].id;
            InSlots(view.slots, id) || OnPath(view.path, id)
  {
    RecordDroppedExactlyWhen(p, branchOf, i);
    BranchesPartition(p.path, p.Items()[i].id);
  }

  /** The emission says where the memory belongs: a slot of the view holds its record, or a
      deferred branch lists it. */
  ghost predicate Placed(p: Packet, branchOf: map<Id, Option<nat>>, id: Id) {
    InSlots(SelectedView(p, branchOf).slots, id) || InDeferredContext(p, id)
  }

  /** A memory stands in neither a slot of the view nor a deferred branch, but only in the
      path, exactly when some branch is selected and its own is numbered past the third. */
  lemma UnplacedExactlyWhen(p: Packet, branchOf: map<Id, Option<nat>>, i: nat)
    requires UniqueIds(p.path) && BranchesAssigned(p, branchOf) && i < |p.Items()|
    ensures var id := p.Items()[i].id;
            !Placed(p, branchOf, id) <==>
            Selected(p) != [] && exists n: nat :: InBranch(p.path, id, n) && n > TRACE_MAX_BRANCHES
  {
    var id := p.Items()[i].id;
    RecordDroppedExactlyWhen(p, branchOf, i);
    if Selected(p) != [] {
      if n: nat :| InBranch(p.path, id, n) {
        DeferredMembers(p, id, n);
        forall m: nat | InBranch(p.path, id, m)
          ensures m == n
        {
          OneBranch(p.path, id, n, m);
        }
      }
    }
  }

  lemma {:induction false} CandidatesAreItems(items: seq<Member>)
    ensures forall m :: m in Candidates(items) ==> m in items
    ensures UniqueIds(items) ==> UniqueIds(Candidates(items))
  {
    if items != [] {
      var front := items[..|items| - 1];
      CandidatesAreItems(front);
      assert forall j :: 0 <= j < |Candidates(front)| ==> Candidates(front)[j] in front;
    }
  }

  lemma {:induction false} UniqueOnce(items: seq<Member>, m: Member)
    requires UniqueIds(items)
    ensures multiset(items)[m] <= 1
  {
    if items != [] {
      var front, last := items[..|items| - 1], items[|items| - 1];
      UniqueOnce(front, m);
      assert items == front + [last];
      if m == last {
        assert m !in front;
      }
    }
  }

  lemma PermutationKeepsUnique(path: seq<Member>, items: seq<Member>)
    requires multiset(path) == multiset(items) && UniqueIds(items)
    ensures UniqueIds(path) && forall m :: m in path <==> m in items
  {
    assert forall m :: m in path <==> m in multiset(path);
    assert forall m :: m in items <==> m in multiset(items);
    forall i, j | 0 <= i < j < |path|
      ensures path[i].id != path[j].id
    {
      var m := path[i];
      if m.id == path[j].id {
        assert m in items && path[j] in items;
        assert m == path[j];
        assert path == path[..j] + path[j..];
        assert m == path[..j][i] && m == path[j..][0];
        assert multiset(path)[m] == multiset(path[..j])[m] + multiset(path[j..])[m];
        UniqueOnce(items, m);
        assert false;
      }
    }
  }

  lemma PathIsUnique(path: seq<Member>, items: seq<Member>)
    requires IsPath(path, items) && UniqueIds(items)
    ensures UniqueIds(path) && forall m :: m in path ==> m in items
  {
    CandidatesAreItems(items);
    if |Candidates(items)| >= 2 {
      PermutationKeepsUnique(path, Candidates(items));
    }
  }

  /** Every memory is placed if and only if no branch is selected, so that everything is
      shown, or the path spans at most three chains. */
  lemma AllPlacedExactlyWhen(p: Packet, branchOf: map<Id, Option<nat>>)
    requires p.Valid() && BranchesAssigned(p, branchOf)
    ensures (forall i :: 0 <= i < |p.Items()| ==> Placed(p, branchOf, p.Items()[i].id))
            <==> Selected(p) == [] || |Keys(p.path)| <= TRACE_MAX_BRANCHES
  {
    PathIsUnique(p.path, p.Items());
    forall i | 0 <= i < |p.Items()|
      ensures var id := p.Items()[i].id;
              !Placed(p, branchOf, id) <==>
              Selected(p) != [] && exists n: nat :: InBranch(p.path, id, n) && n > TRACE_MAX_BRANCHES
    {
      UnplacedExactlyWhen(p, branchOf, i);
    }
    if |Keys(p.path)| > TRACE_MAX_BRANCHES {
      var i := InFourthBranch(p);
      assert InBranch(p.path, p.Items()[i].id, TRACE_MAX_BRANCHES + 1);
    }
  }

  lemma InFourthBranch(p: Packet) returns (i: nat)
    requires p.Valid() && |Keys(p.path)| > TRACE_MAX_BRANCHES
    ensures i < |p.Items()| && InBranch(p.path, p.Items()[i].id, TRACE_MAX_BRANCHES + 1)
  {
    PathIsUnique(p.path, p.Items());
    KeysFacts(p.path);
    var key := Keys(p.path)[TRACE_MAX_BRANCHES];
    assert key in Keys(p.path);
    var k :| 0 <= k < |p.path| && KeyOf(p.path[k]) == key;
    assert p.path[k] in p.Items();
    i :| 0 <= i < |p.Items()| && p.Items()[i] == p.path[k];
    InBranchIs(p.path, k, TRACE_MAX_BRANCHES + 1);
  }

  function Step(id: Id, place: nat): Member {
    Member(id, Facts(Procedure, Some(Chain(place)), Fresh, Active, place, true, false, false, false),
           CurrentReusableProcedure,
           false, SortKey(6099, 9999, place))
  }

  lemma FourInOrder(keys: seq<Chain>)
    requires Ascending(keys) && forall i :: 0 <= i < |keys| ==> 1 <= keys[i].place <= 4
    requires Chain(1) in keys && Chain(2) in keys && Chain(3) in keys && Chain(4) in keys
    ensures |keys| == 4 && keys[3] == Chain(4)
  {
    var a :| 0 <= a < |keys| && keys[a] == Chain(1);
    var b :| 0 <= b < |keys| && keys[b] == Chain(2);
    var c :| 0 <= c < |keys| && keys[c] == Chain(3);
    var d :| 0 <= d < |keys| && keys[d] == Chain(4);
    assert 0 <= a < b < c < d;
    assert keys[0].place < keys[1].place < keys[2].place < keys[3].place;
    PlacesGrow(keys, |keys| - 1);
  }

  lemma {:induction false} PlacesGrow(keys: seq<Chain>, i: nat)
    requires Ascending(keys) && i < |keys| && keys[0].place >= 1
    ensures keys[i].place >= i + 1
  {
    if i > 0 {
      PlacesGrow(keys, i - 1);
    }
  }

  lemma FourthKey(path: seq<Member>)
    requires |path| == 4 && forall i :: 0 <= i < 4 ==> path[i].facts.chain == Some(Chain(i + 1))
    ensures |Keys(path)| == 4 && Keys(path)[3] == Chain(4)
  {
    KeysFacts(path);
    forall v | 1 <= v <= 4
      ensures Chain(v) in Keys(path)
    {
      assert KeyOf(path[v - 1]) == Chain(v);
    }
    forall k | 0 <= k < |Keys(path)|
      ensures 1 <= Keys(path)[k].place <= 4
    {
      assert Keys(path)[k] in Keys(path);
    }
    FourInOrder(Keys(path));
  }

  lemma FreshStepsAreReused(p: Packet)
    requires p.Primary() == p.Items() == p.path && p.contradictions == 0 && p.flagged == {} && !p.historical
    requires |Keys(p.path)| > 1 && forall i :: 0 <= i < |p.path| ==> p.path[i] == Step(p.path[i].id, i + 1)
    ensures Recommend(p) == Reuse && Selected(p) == [1]
  {
    ReuseExactlyWhen(p);
  }

  lemma PrimaryPacket(items: seq<Member>) returns (p: Packet)
    requires |items| >= 2 && UniqueIds(items) && InOrder(items)
    requires forall i :: 0 <= i < |items| ==> IsPathCandidate(items[i])
    ensures p.Valid() && p.Primary() == p.Items() == p.path == items
    ensures p.contradictions == 0 && p.flagged == {} && !p.historical
  {
    p := Packet([items, [], [], [], [], []], false, 0, {}, false, false, false, items);
    PrimaryOnly(items);
    AllCandidates(items);
  }

  lemma FourthIsUnplaced(p: Packet, branchOf: map<Id, Option<nat>>)
    requires UniqueIds(p.path) && p.Items() == p.path && Selected(p) == [1] && BranchesAssigned(p, branchOf)
    requires |p.path| == 4 && forall i :: 0 <= i < 4 ==> p.path[i].facts.chain == Some(Chain(i + 1))
    ensures !Placed(p, branchOf, p.path[3].id)
  {
    FourthKey(p.path);
    InBranchIs(p.path, 3, 4);
    UnplacedExactlyWhen(p, branchOf, 3);
  }

  /** Four procedures of four chains, all fresh: the packet is recommended for reuse, and of
      the records of the fourth procedure only the entry in the path is emitted. */
  lemma FourChainsLeaveOneUnplaced(items: seq<Member>) returns (p: Packet)
    requires |items| == 4 && UniqueIds(items) && forall i :: 0 <= i < 4 ==> items[i] == Step(items[i].id, i + 1)
    ensures p.Valid() && p.Items() == items && Recommend(p) == Reuse
    ensures forall branchOf :: BranchesAssigned(p, branchOf) ==>
              !Placed(p, branchOf, items[3].id) && OnPath(SelectedView(p, branchOf).path, items[3].id)
  {
    p := PrimaryPacket(items);
    FourthKey(items);
    FreshStepsAreReused(p);
    assert items[3] == p.path[3];
    forall branchOf | BranchesAssigned(p, branchOf)
      ensures !Placed(p, branchOf, items[3].id)
    {
      FourthIsUnplaced(p, branchOf);
    }
  }

  lemma PrimaryOnly(items: seq<Member>)
    ensures Flat([items, [], [], [], [], []]) == items
  {
    var slots: seq<seq<Member>> := [items];
    assert slots[..0] == [];
    for k := 1 to SLOTS
      invariant |slots| == k && slots[0] == items && Flat(slots) == items
      invariant forall j :: 1 <= j < k ==> slots[j] == []
    {
      EmptySlot(slots);
      slots := slots + [[]];
    }
    assert slots == [items, [], [], [], [], []];
  }

  lemma EmptySlot(slots: seq<seq<Member>>)
    ensures Flat(slots + [[]]) == Flat(slots)
  {
    assert (slots + [[]])[..|slots|] == slots;
  }

  lemma {:induction false} AllCandidates(items: seq<Member>)
    requires forall i :: 0 <= i < |items| ==> IsPathCandidate(items[i])
    ensures Candidates(items) == items
  {
    if items != [] {
      AllCandidates(items[..|items| - 1]);
    }
  }

  // --------------------------------------------------------------------- finalizing

  method SeeSlot(ms: seq<RuntimeMemory>) returns (seen: seq<Member>)
    ensures SeesAll(seen, ms)
  {
    seen := [];
    for i := 0 to |ms|
      invariant |seen| == i && forall j :: 0 <= j < i ==> seen[j] == Seen(ms[j])
    {
      seen := seen + [Seen(ms[i])];
    }
  }

  method SeeSlots(slots: seq<seq<RuntimeMemory>>) returns (seen: seq<seq<Member>>)
    ensures SeesSlots(seen, slots)
  {
    seen := [];
    for k := 0 to |slots|
      invariant |seen| == k && forall j :: 0 <= j < k ==> SeesAll(seen[j], slots[j])
    {
      var slot := SeeSlot(slots[k]);
      seen := seen + [slot];
    }
  }

  ghost function BranchMap(items: seq<RuntimeMemory>): (r: map<Id, Option<nat>>)
    reads items
    requires DistinctIds(items)
    ensures forall i :: 0 <= i < |items| ==> items[i].id in r && r[items[i].id] == items[i].branch
  {
    if items == [] then map[]
    else BranchMap(items[..|items| - 1])[items[|items| - 1].id := items[|items| - 1].branch]
  }

  lemma KeptObjects(slots: seq<seq<RuntimeMemory>>, kept: seq<seq<RuntimeMemory>>)
    requires IsDeduped(slots, kept)
    ensures forall m :: m in Flat(kept) ==> m in Objects(slots)
  {
    DedupedFlat(slots, kept);
    SurvivorsFacts(Flat(slots), {});
    FlatMembers(slots);
  }

  ghost predicate AllHaveRoles(items: seq<RuntimeMemory>)
    reads (set m | m in items)`role, (set m | m in items)`order
    reads (set m | m in items)`relations, (set m | m in items)`rank
  {
    forall i :: 0 <= i < |items| ==> HasRole(items[i])
  }

  ghost predicate NoBranches(items: seq<RuntimeMemory>)
    reads items
  {
    forall i :: 0 <= i < |items| ==> items[i].branch == None
  }

  /** Duplicates out, roles in. */
  method Prepare(packet: MemoryPacket) returns (items: seq<RuntimeMemory>)
    requires packet.Valid() && forall m :: m in Objects(packet.slots) ==> m.branch == None
    modifies packet, Objects(packet.slots)
    ensures IsDeduped(old(packet.slots), packet.slots) && items == Flat(packet.slots)
    ensures DistinctIds(items) && NoBranches(items) && forall m :: m in items ==> m in old(Objects(packet.slots))
    ensures AllHaveRoles(items)
  {
    ghost var before := packet.slots;
    var dropped := packet.Dedupe();
    items := Flat(packet.slots);
    DedupedIds(before, packet.slots);
    KeptObjects(before, packet.slots);
    assert forall i :: 0 <= i < |items| ==> items[i] in items;
    AssignRoles(items);
  }

  lemma NoBranchFields(items: seq<RuntimeMemory>)
    requires NoBranches(items)
    ensures forall i :: 0 <= i < |items| ==> BranchFields(items)[i] == None
  {
  }

  lemma FinalBranches(p: Packet, slots: seq<seq<RuntimeMemory>>, before: seq<Option<nat>>)
    requires SeesSlots(p.slots, slots) && DistinctIds(Flat(slots)) && |before| == |Flat(slots)|
    requires Tagged(p.path, Flat(slots), before, |Keys(p.path)|) && forall i :: 0 <= i < |before| ==> before[i] == None
    ensures BranchesAssigned(p, BranchMap(Flat(slots)))
  {
    SeesFlat(p.slots, slots);
    TaggedIsAssigned(p, Flat(slots), before, BranchMap(Flat(slots)));
  }

  /** The members of the deduplicated slots and the path over them. */
  method SeePath(kept: seq<seq<RuntimeMemory>>, ghost slots: seq<seq<RuntimeMemory>>)
      returns (seen: seq<seq<Member>>, path: seq<Member>)
    requires IsDeduped(slots, kept)
    ensures SeesSlots(seen, kept) && IsPath(path, Flat(seen)) && UniqueIds(Flat(seen)) && UniqueIds(path)
  {
    seen := SeeSlots(kept);
    path := BuildPath(Flat(seen));
    DedupedIds(slots, kept);
    SeesFlat(seen, kept);
    PathIsUnique(path, Flat(seen));
  }

  /** The path and its branches over deduplicated slots. */
  method BranchSlots(kept: seq<seq<RuntimeMemory>>, items: seq<RuntimeMemory>, ghost slots: seq<seq<RuntimeMemory>>,
                     rest: Packet)
      returns (p: Packet, reservoir: seq<Branch>)
    requires |slots| == SLOTS && IsDeduped(slots, kept) && items == Flat(kept) && DistinctIds(items)
             && NoBranches(items) && AllHaveRoles(items)
    modifies (set m | m in items)`branch
    ensures p == rest.(slots := p.slots, path := p.path) && p.Valid() && SeesSlots(p.slots, kept)
    ensures reservoir == Reservoir(p.path) && Tagged(p.path, items, old(BranchFields(items)), |Keys(p.path)|)
    ensures AllHaveRoles(items)
  {
    var seen, path := SeePath(kept, slots);
    p := rest.(slots := seen, path := path);
    reservoir := BuildReservoir(path, items);
  }

  /** The whole of finalizing; `rest` is what it leaves as it is. Every memory has its role and
      order, the packet that is assessed and emitted is valid, and its branch fields are as the
      results on emission assume. */
  method Finalize(packet: MemoryPacket, rest: Packet) returns (p: Packet, reservoir: seq<Branch>)
    requires packet.Valid() && forall m :: m in Objects(packet.slots) ==> m.branch == None
    modifies packet, Objects(packet.slots)
    ensures IsDeduped(old(packet.slots), packet.slots) && SeesSlots(p.slots, packet.slots)
    ensures p == rest.(slots := p.slots, path := p.path) && p.Valid() && reservoir == Reservoir(p.path)
    ensures DistinctIds(Flat(packet.slots)) && BranchesAssigned(p, BranchMap(Flat(packet.slots)))
    ensures AllHaveRoles(Flat(packet.slots))
  {
    ghost var slots := packet.slots;
    var items := Prepare(packet);
    ghost var before := BranchFields(items);
    NoBranchFields(items);
    p, reservoir := BranchSlots(packet.slots, items, slots, rest);
    FinalBranches(p, packet.slots, before);
  }
}
