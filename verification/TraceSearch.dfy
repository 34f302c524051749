/** Completing a memory packet along graph relations: a breadth-first search from the
    packet's memories, cut at a depth and at a number of added notes. */
module TraceSearch {
  import opened Wrappers

  const TRACE_MAX_DEPTH: nat := 2
  const TRACE_MAX_ADDED: nat := 8

  datatype Intent = Historical | Debugging | Comparison | Implementation
  datatype Purpose = Purpose(intent: Intent, required: set<Role>, optional: set<Role>)

  datatype Edge = Edge(relation: Relation, target: Id)
  datatype Hop = Hop(source: Id, relation: Relation, target: Id)
  datatype Memory = Memory(id: Id, depth: nat, path: seq<Hop>)

  /** Everything the search reads. `edges` lists the edges of a note in both directions,
      with `reverse_` removed from their relations; `rows` are the notes that can be
      loaded; `anchored` the notes that share a term with the query or the seeds; `roles`
      the assembly role a note gets when it is reached along a relation. */
  datatype World = World(edges: map<Id, seq<Edge>>, allowed: set<Relation>, rows: set<Id>, anchored: set<Id>,
                         roles: map<Edge, Role>, purpose: Purpose, seedRoles: set<Role>,
                         unanchored: set<Relation>, superseding: set<Relation>)

  function EdgesOf(w: World, id: Id): seq<Edge> {
    if id in w.edges then w.edges[id] else []
  }

  /** The admission test. It does not look at what was added before. */
  predicate Admitted(w: World, e: Edge) {
    var role := if e in w.roles then w.roles[e] else Context;
    var anchor := e.target in w.anchored;
    var intent := w.purpose.intent;
    if role !in w.purpose.required && role !in w.purpose.optional then false
    else if !anchor && e.relation !in w.unanchored then false
    else if role in w.purpose.required && role !in w.seedRoles then true
    else if e.relation in w.superseding then true
    else if role in {Caution, Diagnosis, FailedAttempt} && intent in {Debugging, Implementation, Historical} then true
    else if role in {CurrentReusableProcedure, SuccessfulResolution} && intent in {Debugging, Implementation} then true
    else role in w.purpose.optional && anchor
  }

  /** The edges the search may follow out of `u`. */
  predicate Step(w: World, u: Id, e: Edge) {
    e in EdgesOf(w, u) && e.relation in w.allowed && e.target in w.rows && Admitted(w, e)
  }

  // ---------------------------------------------------------------- reachability

  ghost predicate Reach(w: World, seeds: seq<Id>, n: nat, v: Id) {
    if n == 0 then v in seeds
    else exists u, e :: Reach(w, seeds, n - 1, u) && Step(w, u, e) && e.target == v
  }

  /** `path` is a real chain of admitted edges from a seed to `v`. */
  ghost predicate Trail(w: World, seeds: seq<Id>, path: seq<Hop>, v: Id) {
    if path == [] then v in seeds
    else
      var hop := path[|path| - 1];
      hop.target == v && Step(w, hop.source, Edge(hop.relation, v))
      && Trail(w, seeds, path[..|path| - 1], hop.source)
  }

  lemma {:induction false} TrailReaches(w: World, seeds: seq<Id>, path: seq<Hop>, v: Id)
    requires Trail(w, seeds, path, v)
    ensures Reach(w, seeds, |path|, v)
  {
    if path != [] {
      var hop := path[|path| - 1];
      TrailReaches(w, seeds, path[..|path| - 1], hop.source);
      assert Step(w, hop.source, Edge(hop.relation, v));
    }
  }

  /** The role a note gets when it is reached along an edge. */
  function RoleOf(w: World, e: Edge): Role {
    if e in w.roles then w.roles[e] else Context
  }

  predicate IsWanted(w: World, role: Role) {
    role in w.purpose.required || role in w.purpose.optional
  }

  /** The purpose of the search needs the role: none of the seeds has it yet, or it belongs to
      the intent, or it is optional and the note is anchored. */
  predicate IsNeeded(w: World, role: Role, anchored: bool) {
    || (role in w.purpose.required && role !in w.seedRoles)
    || (role in {Caution, Diagnosis, FailedAttempt} && w.purpose.intent != Comparison)
    || (role in {CurrentReusableProcedure, SuccessfulResolution} && w.purpose.intent in {Debugging, Implementation})
    || (role in w.purpose.optional && anchored)
  }

  /** What the admission test comes to: the role is wanted, the note shares a term with the
      query or is exempt by its relation, and it replaces something or its role is needed. */
  lemma AdmittedExactlyWhen(w: World, e: Edge)
    ensures Admitted(w, e) <==>
              && IsWanted(w, RoleOf(w, e))
              && (e.target in w.anchored || e.relation in w.unanchored)
              && (e.relation in w.superseding || IsNeeded(w, RoleOf(w, e), e.target in w.anchored))
  {
  }

  /** A hop along a stored edge of an allowed relation to a note that can be loaded. */
  predicate IsRealHop(w: World, hop: Hop) {
    && hop.source in w.edges && Edge(hop.relation, hop.target) in w.edges[hop.source]
    && hop.relation in w.allowed && hop.target in w.rows
  }

  /** The hops of a trail are real, lead from one to the next, begin at a seed and end at `v`. */
  lemma {:induction false} TrailIsReal(w: World, seeds: seq<Id>, path: seq<Hop>, v: Id)
    requires Trail(w, seeds, path, v)
    ensures forall k :: 0 <= k < |path| ==> IsRealHop(w, path[k]) && Admitted(w, Edge(path[k].relation, path[k].target))
    ensures forall k :: 0 <= k < |path| - 1 ==> path[k].target == path[k + 1].source
    ensures if path == [] then v in seeds else path[0].source in seeds && path[|path| - 1].target == v
  {
    if path != [] {
      TrailIsReal(w, seeds, path[..|path| - 1], path[|path| - 1].source);
    }
  }

  // ---------------------------------------------------------------- search state

  ghost predicate Sorted(s: seq<Memory>) {
    forall i, j :: 0 <= i < j < |s| ==> s[i].depth <= s[j].depth
  }

  /** A memory carries its depth as found, and a chain of that length. */
  ghost predicate Sound(w: World, seeds: seq<Id>, found: map<Id, nat>, m: Memory) {
    m.id in found && found[m.id] == m.depth == |m.path| && Trail(w, seeds, m.path, m.id)
  }

  predicate IsAdded(added: seq<Memory>, v: Id) {
    exists i :: 0 <= i < |added| && added[i].id == v
  }

  /** What was found is the seeds, at distance 0, and the added notes. */
  ghost predicate FoundAre(seeds: seq<Id>, found: map<Id, nat>, added: seq<Memory>) {
    && (forall v :: v in found <==> v in seeds || IsAdded(added, v))
    && (forall v :: v in seeds ==> found[v] == 0)
  }

  ghost predicate AllSound(w: World, seeds: seq<Id>, found: map<Id, nat>, s: seq<Memory>) {
    forall i :: 0 <= i < |s| ==> Sound(w, seeds, found, s[i])
  }

  /** The added notes are distinct, not seeds, and in non-decreasing depth. */
  ghost predicate InOrder(seeds: seq<Id>, added: seq<Memory>) {
    && (forall i :: 0 <= i < |added| ==> 1 <= added[i].depth && added[i].id !in seeds)
    && (forall i, j :: 0 <= i < j < |added| ==> added[i].id != added[j].id)
    && Sorted(added)
  }

  ghost predicate Collected(w: World, seeds: seq<Id>, found: map<Id, nat>, added: seq<Memory>) {
    FoundAre(seeds, found, added) && AllSound(w, seeds, found, added) && InOrder(seeds, added)
  }

  /** The queue holds found memories of the current level, then of the next. */
  ghost predicate Queued(w: World, seeds: seq<Id>, found: map<Id, nat>, frontier: seq<Memory>, level: nat) {
    && AllSound(w, seeds, found, frontier)
    && (forall i :: 0 <= i < |frontier| ==>
        level <= frontier[i].depth <= level + 1 && frontier[i].depth <= TRACE_MAX_DEPTH)
    && Sorted(frontier)
  }

  /** Depths are shortest distances, and everything up to the current level is found. */
  ghost predicate Shortest(w: World, seeds: seq<Id>, found: map<Id, nat>, level: nat) {
    && (forall v, n: nat :: Reach(w, seeds, n, v) && v in found ==> found[v] <= n)
    && (forall v, n: nat :: Reach(w, seeds, n, v) && n <= level ==> v in found)
  }

  ghost predicate InQueue(frontier: seq<Memory>, u: Id) {
    exists i :: 0 <= i < |frontier| && frontier[i].id == u
  }

  ghost predicate Closed(w: World, found: map<Id, nat>, u: Id) {
    forall e :: Step(w, u, e) ==> e.target in found
  }

  /** What is found is queued or expanded. */
  ghost predicate Expanded(w: World, found: map<Id, nat>, frontier: seq<Memory>) {
    forall u :: u in found && !InQueue(frontier, u) && found[u] < TRACE_MAX_DEPTH ==> Closed(w, found, u)
  }

  /** Raising the level once the queue has moved on to it. */
  lemma RaiseLevel(w: World, seeds: seq<Id>, found: map<Id, nat>, frontier: seq<Memory>, level: nat)
    requires Queued(w, seeds, found, frontier, level) && Shortest(w, seeds, found, level)
             && Expanded(w, found, frontier)
    requires frontier != [] && frontier[0].depth == level + 1
    ensures Queued(w, seeds, found, frontier, level + 1) && Shortest(w, seeds, found, level + 1)
  {
    forall v, n: nat | Reach(w, seeds, n, v) && n <= level + 1
      ensures v in found
    {
      if n == level + 1 {
        var u, e :| Reach(w, seeds, level, u) && Step(w, u, e) && e.target == v;
        assert Reach(w, seeds, level, u) && found[u] <= level;
        assert !InQueue(frontier, u);
        assert Closed(w, found, u);
      }
    }
  }

  function Candidate(head: Memory, e: Edge): Memory {
    Memory(e.target, head.depth + 1, head.path + [Hop(head.id, e.relation, e.target)])
  }

  lemma CandidateIsSound(w: World, seeds: seq<Id>, found: map<Id, nat>, s: seq<Memory>, head: Memory, e: Edge)
    requires Sound(w, seeds, found, head) && Step(w, head.id, e) && e.target !in found && AllSound(w, seeds, found, s)
    ensures var m := Candidate(head, e);
            AllSound(w, seeds, found[m.id := m.depth], s + [m]) && Sound(w, seeds, found[m.id := m.depth], head)
  {
    var m := Candidate(head, e);
    assert m.path[..|m.path| - 1] == head.path;
    assert Edge(e.relation, e.target) == e;
    assert Trail(w, seeds, m.path, m.id);
    var found' := found[m.id := m.depth];
    forall i | 0 <= i < |s + [m]|
      ensures Sound(w, seeds, found', (s + [m])[i])
    {
      if i < |s| { assert Sound(w, seeds, found, s[i]); }
    }
  }

  lemma AddFound(seeds: seq<Id>, found: map<Id, nat>, added: seq<Memory>, m: Memory)
    requires FoundAre(seeds, found, added) && m.id !in found
    ensures FoundAre(seeds, found[m.id := m.depth], added + [m])
  {
    var added' := added + [m];
    forall v
      ensures IsAdded(added', v) <==> IsAdded(added, v) || v == m.id
    {
      if IsAdded(added, v) {
        var i :| 0 <= i < |added| && added[i].id == v;
        assert added'[i].id == v;
      }
      assert added'[|added|] == m;
    }
  }

  lemma AddInOrder(seeds: seq<Id>, found: map<Id, nat>, added: seq<Memory>, m: Memory)
    requires FoundAre(seeds, found, added) && InOrder(seeds, added) && m.id !in found && 1 <= m.depth
    requires forall i :: 0 <= i < |added| ==> added[i].depth <= m.depth
    ensures InOrder(seeds, added + [m])
  {
    var added' := added + [m];
    forall i, j | 0 <= i < j < |added'|
      ensures added'[i].id != added'[j].id
    {
      assert IsAdded(added, added[i].id);
    }
  }

  lemma AddShortest(w: World, seeds: seq<Id>, found: map<Id, nat>, level: nat, v: Id)
    requires Shortest(w, seeds, found, level) && v !in found
    ensures Shortest(w, seeds, found[v := level + 1], level)
  {
  }

  lemma ReachStep(w: World, seeds: seq<Id>, n: nat, v: Id) returns (u: Id, e: Edge)
    requires 0 < n && Reach(w, seeds, n, v)
    ensures Reach(w, seeds, n - 1, u) && Step(w, u, e) && e.target == v
  {
    u, e :| Reach(w, seeds, n - 1, u) && Step(w, u, e) && e.target == v;
  }

  /** With an empty queue, everything within the depth bound was found. */
  lemma {:induction false} NothingWithinReachMissed(w: World, seeds: seq<Id>, found: map<Id, nat>, level: nat,
                                                    n: nat, v: Id)
    requires Shortest(w, seeds, found, level) && Expanded(w, found, [])
    requires Reach(w, seeds, n, v) && n <= TRACE_MAX_DEPTH
    ensures v in found
  {
    if n > 0 {
      var u, e := ReachStep(w, seeds, n, v);
      NothingWithinReachMissed(w, seeds, found, level, n - 1, u);
      assert Closed(w, found, u);
    } else {
      assert v in found;
    }
  }

  /** ... and if nothing sits at the depth bound, nothing at any distance was missed. */
  lemma {:induction false} NothingMissed(w: World, seeds: seq<Id>, found: map<Id, nat>, level: nat, n: nat, v: Id)
    requires Shortest(w, seeds, found, level) && Expanded(w, found, [])
    requires forall u :: u in found ==> found[u] < TRACE_MAX_DEPTH
    requires Reach(w, seeds, n, v)
    ensures v in found
  {
    if n > 0 {
      var u, e := ReachStep(w, seeds, n, v);
      NothingMissed(w, seeds, found, level, n - 1, u);
      assert Closed(w, found, u);
    } else {
      assert v in found;
    }
  }

  // ---------------------------------------------------------------- the search

  /** `m` was reached along a real chain as long as its depth, and no chain is shorter. */
  ghost predicate AtShortestDistance(w: World, seeds: seq<Id>, m: Memory) {
    && 1 <= m.depth <= TRACE_MAX_DEPTH && |m.path| == m.depth && Trail(w, seeds, m.path, m.id)
    && forall n: nat :: Reach(w, seeds, n, m.id) ==> m.depth <= n
  }

  ghost predicate Covered(seeds: seq<Id>, added: seq<Memory>, v: Id) {
    v in seeds || IsAdded(added, v)
  }

  /** What a finished search guarantees. */
  ghost predicate Complete(w: World, seeds: seq<Id>, added: seq<Memory>, budgetLimited: bool) {
    && |added| <= TRACE_MAX_ADDED
    && (forall i :: 0 <= i < |added| ==> AtShortestDistance(w, seeds, added[i]) && added[i].id !in seeds)
    && (forall i, j :: 0 <= i < j < |added| ==> added[i].id != added[j].id)
    && Sorted(added)
    // below the budget, nothing within the depth bound is missing
    && (|added| < TRACE_MAX_ADDED ==>
          forall v, n: nat :: Reach(w, seeds, n, v) && n <= TRACE_MAX_DEPTH ==> Covered(seeds, added, v))
    // the flag is exact about its two causes, and without it nothing at all is missing
    && (budgetLimited <==> |added| == TRACE_MAX_ADDED || AtBound(added))
    && (!budgetLimited ==> forall v, n: nat :: Reach(w, seeds, n, v) ==> Covered(seeds, added, v))
  }

  method CompleteTrace(w: World, seeds: seq<Id>)
      returns (added: seq<Memory>, budgetLimited: bool, omitted: seq<Relation>)
    ensures Complete(w, seeds, added, budgetLimited)
    ensures |added| <= 8 && forall i :: 0 <= i < |added| ==> 1 <= added[i].depth <= 2
    ensures forall relation :: relation in omitted ==> IsOmitted(w, seeds, added, relation)
    ensures |added| < TRACE_MAX_ADDED ==>
              forall relation :: IsOmitted(w, seeds, added, relation) ==> relation in omitted
  {
    added, budgetLimited, omitted := [], false, [];
    var frontier := seq(|seeds|, i requires 0 <= i < |seeds| => Memory(seeds[i], 0, []));
    ghost var found: map<Id, nat> := map v | v in seeds :: 0;
    ghost var level: nat := 0;
    Start(w, seeds, frontier, found);
    while frontier != [] && |added| < TRACE_MAX_ADDED
      invariant Searching(w, seeds, found, added, frontier, level)
      invariant |added| < TRACE_MAX_ADDED ==> Expanded(w, found, frontier)
      invariant LimitNoted(found, added, frontier, budgetLimited)
      invariant OnlyOmitted(w, found, omitted)
      invariant |added| < TRACE_MAX_ADDED ==> AllReported(w, found, frontier, omitted)
      decreases TRACE_MAX_ADDED - |added|, |frontier|
    {
      var head := frontier[0];
      level := PopHead(w, seeds, found, added, frontier, level, budgetLimited);
      PopReported(w, found, frontier, omitted);
      frontier := frontier[1..];
      if head.depth >= TRACE_MAX_DEPTH {
        budgetLimited := true;
      } else {
        added, frontier, budgetLimited, omitted, found :=
          ExpandHead(w, seeds, head, added, frontier, budgetLimited, omitted, found);
      }
    }
    Conclude(w, seeds, found, added, frontier, level, budgetLimited);
    ConcludeOmitted(w, seeds, found, added, frontier, omitted);
  }

  lemma PopSearching(w: World, seeds: seq<Id>, found: map<Id, nat>, added: seq<Memory>, queue: seq<Memory>, level: nat)
    requires Searching(w, seeds, found, added, queue, level) && queue != [] && Expanded(w, found, queue)
    ensures queue[0].depth <= TRACE_MAX_DEPTH && Sound(w, seeds, found, queue[0])
    ensures Searching(w, seeds, found, added, queue[1..], queue[0].depth)
  {
    if queue[0].depth == level + 1 {
      RaiseLevel(w, seeds, found, queue, level);
    }
    assert forall i :: 0 <= i < |queue| - 1 ==> queue[1..][i] == queue[i + 1];
  }

  lemma PopExpanded(w: World, found: map<Id, nat>, queue: seq<Memory>)
    requires queue != [] && Expanded(w, found, queue)
    ensures ExpandedExcept(w, found, queue[1..], queue[0].id)
    ensures queue[0].id in found && found[queue[0].id] >= TRACE_MAX_DEPTH ==> Expanded(w, found, queue[1..])
  {
    QueueTail(queue);
  }

  lemma PopLimit(found: map<Id, nat>, added: seq<Memory>, queue: seq<Memory>, limited: bool)
    requires queue != [] && LimitNoted(found, added, queue, limited)
    ensures queue[0].id in found && found[queue[0].id] < TRACE_MAX_DEPTH ==>
            LimitNoted(found, added, queue[1..], limited)
    ensures AtBound(added) ==> LimitNoted(found, added, queue[1..], true)
  {
    QueueTail(queue);
  }

  /** Taking the head off the queue; the level follows its depth. */
  lemma PopHead(w: World, seeds: seq<Id>, found: map<Id, nat>, added: seq<Memory>, queue: seq<Memory>,
                level: nat, limited: bool) returns (level': nat)
    requires Searching(w, seeds, found, added, queue, level) && queue != []
    requires Expanded(w, found, queue) && LimitNoted(found, added, queue, limited)
    ensures level' == queue[0].depth <= TRACE_MAX_DEPTH
    ensures Sound(w, seeds, found, queue[0])
    ensures Searching(w, seeds, found, added, queue[1..], level')
    ensures ExpandedExcept(w, found, queue[1..], queue[0].id)
    ensures level' < TRACE_MAX_DEPTH ==> LimitNoted(found, added, queue[1..], limited)
    ensures level' == TRACE_MAX_DEPTH ==> Expanded(w, found, queue[1..]) && LimitNoted(found, added, queue[1..], true)
  {
    level' := queue[0].depth;
    PopSearching(w, seeds, found, added, queue, level);
    PopExpanded(w, found, queue);
    PopLimit(found, added, queue, limited);
    if level' == TRACE_MAX_DEPTH {
      HeadIsAdded(w, seeds, found, added, queue[0]);
    }
  }

  lemma Conclude(w: World, seeds: seq<Id>, found: map<Id, nat>, added: seq<Memory>, frontier: seq<Memory>,
                 level: nat, limited: bool)
    requires Searching(w, seeds, found, added, frontier, level) && LimitNoted(found, added, frontier, limited)
    requires |added| < TRACE_MAX_ADDED ==> frontier == [] && Expanded(w, found, frontier)
    ensures Complete(w, seeds, added, limited)
  {
    forall i | 0 <= i < |added|
      ensures AtShortestDistance(w, seeds, added[i])
    {
      assert Sound(w, seeds, found, added[i]);
    }
    if |added| < TRACE_MAX_ADDED {
      forall v, n: nat | Reach(w, seeds, n, v) && n <= TRACE_MAX_DEPTH
        ensures Covered(seeds, added, v)
      {
        NothingWithinReachMissed(w, seeds, found, level, n, v);
      }
    }
    if !limited {
      forall v, n: nat | Reach(w, seeds, n, v)
        ensures Covered(seeds, added, v)
      {
        NothingMissed(w, seeds, found, level, n, v);
      }
    }
  }

  ghost predicate AtBound(added: seq<Memory>) {
    exists i :: 0 <= i < |added| && added[i].depth == TRACE_MAX_DEPTH
  }

  ghost predicate Searching(w: World, seeds: seq<Id>, found: map<Id, nat>, added: seq<Memory>,
                            frontier: seq<Memory>, level: nat) {
    && |added| <= TRACE_MAX_ADDED
    && Collected(w, seeds, found, added)
    && Queued(w, seeds, found, frontier, level)
    && Shortest(w, seeds, found, level)
    && forall i :: 0 <= i < |added| ==> added[i].depth <= level + 1 && added[i].depth <= TRACE_MAX_DEPTH
  }

  /** The flag is raised only by a full budget or a note at the depth bound, and while it
      is down no note at the bound has left the queue. */
  ghost predicate LimitNoted(found: map<Id, nat>, added: seq<Memory>, frontier: seq<Memory>, limited: bool) {
    && (limited ==> |added| == TRACE_MAX_ADDED || AtBound(added))
    && (|added| == TRACE_MAX_ADDED ==> limited)
    && (!limited ==> forall u :: u in found && !InQueue(frontier, u) ==> found[u] < TRACE_MAX_DEPTH)
  }

  // ---------------------------------------------------- the relations not followed

  /** A seed, or an added note within the depth bound: its edges were looked at. */
  ghost predicate LookedAt(seeds: seq<Id>, added: seq<Memory>, u: Id) {
    u in seeds || exists i :: 0 <= i < |added| && added[i].id == u && added[i].depth < TRACE_MAX_DEPTH
  }

  predicate Bars(w: World, u: Id, relation: Relation) {
    relation !in w.allowed && exists k :: 0 <= k < |EdgesOf(w, u)| && EdgesOf(w, u)[k].relation == relation
  }

  /** The relation is not to be followed, and an edge of a note that was looked at has it. */
  ghost predicate IsOmitted(w: World, seeds: seq<Id>, added: seq<Memory>, relation: Relation) {
    exists u :: LookedAt(seeds, added, u) && Bars(w, u, relation)
  }

  ghost predicate OnlyOmitted(w: World, found: map<Id, nat>, omitted: seq<Relation>) {
    forall relation :: relation in omitted ==>
      exists u :: u in found && found[u] < TRACE_MAX_DEPTH && Bars(w, u, relation)
  }

  ghost predicate Reported(w: World, omitted: seq<Relation>, u: Id) {
    forall relation :: Bars(w, u, relation) ==> relation in omitted
  }

  ghost predicate ReportedUpTo(w: World, omitted: seq<Relation>, u: Id, n: nat)
    requires n <= |EdgesOf(w, u)|
  {
    forall k :: 0 <= k < n && EdgesOf(w, u)[k].relation !in w.allowed ==> EdgesOf(w, u)[k].relation in omitted
  }

  ghost predicate AllReported(w: World, found: map<Id, nat>, frontier: seq<Memory>, omitted: seq<Relation>) {
    forall u :: u in found && !InQueue(frontier, u) && found[u] < TRACE_MAX_DEPTH ==> Reported(w, omitted, u)
  }

  ghost predicate ReportedExcept(w: World, found: map<Id, nat>, frontier: seq<Memory>, omitted: seq<Relation>,
                                 head: Id) {
    forall u :: u in found && !InQueue(frontier, u) && u != head && found[u] < TRACE_MAX_DEPTH ==>
      Reported(w, omitted, u)
  }

  lemma PopReported(w: World, found: map<Id, nat>, queue: seq<Memory>, omitted: seq<Relation>)
    requires queue != [] && AllReported(w, found, queue, omitted)
    ensures ReportedExcept(w, found, queue[1..], omitted, queue[0].id)
    ensures queue[0].id in found && found[queue[0].id] >= TRACE_MAX_DEPTH ==> AllReported(w, found, queue[1..], omitted)
  {
    QueueTail(queue);
  }

  /** What is kept about the omitted relations while the edges of `head` are followed. */
  ghost predicate Omitting(w: World, found: map<Id, nat>, frontier: seq<Memory>, omitted: seq<Relation>, head: Id) {
    OnlyOmitted(w, found, omitted) && ReportedExcept(w, found, frontier, omitted, head)
  }

  lemma OmitOne(w: World, found: map<Id, nat>, frontier: seq<Memory>, omitted: seq<Relation>, head: Id, e: Edge)
    requires Omitting(w, found, frontier, omitted, head) && head in found && found[head] < TRACE_MAX_DEPTH
    requires e in EdgesOf(w, head) && e.relation !in w.allowed
    ensures Omitting(w, found, frontier, omitted + [e.relation], head)
  {
    var more := omitted + [e.relation];
    var k :| 0 <= k < |EdgesOf(w, head)| && EdgesOf(w, head)[k] == e;
    assert Bars(w, head, e.relation);
    forall u | u in found && !InQueue(frontier, u) && u != head && found[u] < TRACE_MAX_DEPTH
      ensures Reported(w, more, u)
    {
      assert Reported(w, omitted, u);
    }
  }

  lemma OmittingAfterAdd(w: World, found: map<Id, nat>, frontier: seq<Memory>, omitted: seq<Relation>, head: Id,
                         m: Memory)
    requires Omitting(w, found, frontier, omitted, head) && m.id !in found
    ensures Omitting(w, found[m.id := m.depth], frontier + [m], omitted, head)
  {
    AddToQueue(frontier, m);
    forall relation | relation in omitted
      ensures exists u :: u in found[m.id := m.depth] && found[m.id := m.depth][u] < TRACE_MAX_DEPTH
                          && Bars(w, u, relation)
    {
      var u :| u in found && found[u] < TRACE_MAX_DEPTH && Bars(w, u, relation);
      assert u in found[m.id := m.depth];
    }
  }

  lemma ReportNext(w: World, was: seq<Relation>, omitted: seq<Relation>, u: Id, n: nat)
    requires n < |EdgesOf(w, u)| && ReportedUpTo(w, was, u, n) && was <= omitted
    requires EdgesOf(w, u)[n].relation !in w.allowed ==> EdgesOf(w, u)[n].relation in omitted
    ensures ReportedUpTo(w, omitted, u, n + 1)
  {
    forall k | 0 <= k < n && EdgesOf(w, u)[k].relation !in w.allowed
      ensures EdgesOf(w, u)[k].relation in omitted
    {
      var i :| 0 <= i < |was| && was[i] == EdgesOf(w, u)[k].relation;
      assert omitted[i] == was[i];
    }
  }

  lemma HeadReported(w: World, found: map<Id, nat>, frontier: seq<Memory>, omitted: seq<Relation>, head: Id)
    requires Omitting(w, found, frontier, omitted, head) && ReportedUpTo(w, omitted, head, |EdgesOf(w, head)|)
    ensures AllReported(w, found, frontier, omitted)
  {
    forall relation | Bars(w, head, relation)
      ensures relation in omitted
    {
      var k :| 0 <= k < |EdgesOf(w, head)| && EdgesOf(w, head)[k].relation == relation;
    }
  }

  lemma ConcludeOmitted(w: World, seeds: seq<Id>, found: map<Id, nat>, added: seq<Memory>, frontier: seq<Memory>,
                        omitted: seq<Relation>)
    requires Collected(w, seeds, found, added) && OnlyOmitted(w, found, omitted)
    requires |added| < TRACE_MAX_ADDED ==> frontier == [] && AllReported(w, found, frontier, omitted)
    ensures forall relation :: relation in omitted ==> IsOmitted(w, seeds, added, relation)
    ensures |added| < TRACE_MAX_ADDED ==>
              forall relation :: IsOmitted(w, seeds, added, relation) ==> relation in omitted
  {
    forall u
      ensures LookedAt(seeds, added, u) <==> u in found && found[u] < TRACE_MAX_DEPTH
    {
      LookedAtIs(w, seeds, found, added, u);
    }
    forall relation | relation in omitted
      ensures IsOmitted(w, seeds, added, relation)
    {
      var u :| u in found && found[u] < TRACE_MAX_DEPTH && Bars(w, u, relation);
      assert LookedAt(seeds, added, u);
    }
    if |added| < TRACE_MAX_ADDED {
      forall relation | IsOmitted(w, seeds, added, relation)
        ensures relation in omitted
      {
        var u :| LookedAt(seeds, added, u) && Bars(w, u, relation);
        assert Reported(w, omitted, u);
      }
    }
  }

  lemma LookedAtIs(w: World, seeds: seq<Id>, found: map<Id, nat>, added: seq<Memory>, u: Id)
    requires Collected(w, seeds, found, added)
    ensures LookedAt(seeds, added, u) <==> u in found && found[u] < TRACE_MAX_DEPTH
  {
    if u !in seeds && IsAdded(added, u) {
      var i :| 0 <= i < |added| && added[i].id == u;
      assert Sound(w, seeds, found, added[i]);
    }
  }

  lemma AddKeepsSearching(w: World, seeds: seq<Id>, found: map<Id, nat>, added: seq<Memory>, frontier: seq<Memory>,
                          head: Memory, e: Edge)
    requires Searching(w, seeds, found, added, frontier, head.depth) && Sound(w, seeds, found, head)
    requires head.depth < TRACE_MAX_DEPTH && |added| < TRACE_MAX_ADDED
    requires Step(w, head.id, e) && e.target !in found
    ensures var m := Candidate(head, e);
            && Searching(w, seeds, found[m.id := m.depth], added + [m], frontier + [m], head.depth)
            && Sound(w, seeds, found[m.id := m.depth], head)
  {
    var m := Candidate(head, e);
    AddFound(seeds, found, added, m);
    AddInOrder(seeds, found, added, m);
    AddShortest(w, seeds, found, head.depth, e.target);
    CandidateIsSound(w, seeds, found, added, head, e);
    CandidateIsSound(w, seeds, found, frontier, head, e);
    AddSorted(frontier, m);
    assert Queued(w, seeds, found[m.id := m.depth], frontier + [m], head.depth);
    assert Collected(w, seeds, found[m.id := m.depth], added + [m]);
    assert Shortest(w, seeds, found[m.id := m.depth], head.depth);
  }

  lemma AddSorted(s: seq<Memory>, m: Memory)
    requires Sorted(s) && forall i :: 0 <= i < |s| ==> s[i].depth <= m.depth
    ensures Sorted(s + [m])
  {
  }

  ghost predicate ClosedUpTo(w: World, found: map<Id, nat>, u: Id, n: nat)
    requires n <= |EdgesOf(w, u)|
  {
    forall k :: 0 <= k < n && Step(w, u, EdgesOf(w, u)[k]) ==> EdgesOf(w, u)[k].target in found
  }

  lemma CloseNext(w: World, was: map<Id, nat>, found: map<Id, nat>, u: Id, n: nat)
    requires n < |EdgesOf(w, u)| && ClosedUpTo(w, was, u, n) && was.Keys <= found.Keys
    requires Step(w, u, EdgesOf(w, u)[n]) ==> EdgesOf(w, u)[n].target in found
    ensures ClosedUpTo(w, found, u, n + 1)
  {
  }

  /** The invariant while the edges of `head` are followed. */
  ghost predicate Expanding(w: World, seeds: seq<Id>, found: map<Id, nat>, added: seq<Memory>, frontier: seq<Memory>,
                            head: Memory, limited: bool) {
    && Searching(w, seeds, found, added, frontier, head.depth) && Sound(w, seeds, found, head)
    && ExpandedExcept(w, found, frontier, head.id)
    && LimitNoted(found, added, frontier, limited)
  }

  lemma AddKeepsExpanding(w: World, seeds: seq<Id>, found: map<Id, nat>, added: seq<Memory>, frontier: seq<Memory>,
                          head: Memory, limited: bool, e: Edge)
    requires Expanding(w, seeds, found, added, frontier, head, limited)
    requires head.depth < TRACE_MAX_DEPTH && |added| < TRACE_MAX_ADDED
    requires Step(w, head.id, e) && e.target !in found
    ensures var m := Candidate(head, e);
            Expanding(w, seeds, found[m.id := m.depth], added + [m], frontier + [m], head,
                      limited || |added| + 1 == TRACE_MAX_ADDED)
  {
    AddKeepsSearching(w, seeds, found, added, frontier, head, e);
    AddKeepsExpanded(w, found, frontier, head.id, Candidate(head, e));
    AddLimitNoted(found, added, frontier, limited, Candidate(head, e));
  }

  /** Follows the edges of one memory taken from the queue. */
  method ExpandHead(w: World, seeds: seq<Id>, head: Memory, added0: seq<Memory>, frontier0: seq<Memory>,
                    limited0: bool, omitted0: seq<Relation>, ghost found0: map<Id, nat>)
      returns (added: seq<Memory>, frontier: seq<Memory>, limited: bool, omitted: seq<Relation>,
               ghost found: map<Id, nat>)
    requires |added0| < TRACE_MAX_ADDED && head.depth < TRACE_MAX_DEPTH
    requires Expanding(w, seeds, found0, added0, frontier0, head, limited0)
    requires Omitting(w, found0, frontier0, omitted0, head.id)
    ensures Searching(w, seeds, found, added, frontier, head.depth)
    ensures |added| < TRACE_MAX_ADDED ==> Expanded(w, found, frontier)
    ensures LimitNoted(found, added, frontier, limited)
    ensures OnlyOmitted(w, found, omitted)
    ensures |added| < TRACE_MAX_ADDED ==> AllReported(w, found, frontier, omitted)
    ensures |added0| < |added| || (added == added0 && frontier == frontier0)
  {
    added, frontier, limited, omitted, found := added0, frontier0, limited0, omitted0, found0;
    var edges := EdgesOf(w, head.id);
    var next := 0;
    while next < |edges| && |added| < TRACE_MAX_ADDED
      invariant 0 <= next <= |edges|
      invariant |added0| < |added| || (added == added0 && frontier == frontier0)
      invariant Expanding(w, seeds, found, added, frontier, head, limited)
      invariant ClosedUpTo(w, found, head.id, next)
      invariant Omitting(w, found, frontier, omitted, head.id) && ReportedUpTo(w, omitted, head.id, next)
    {
      ghost var foundBefore, omittedBefore := found, omitted;
      added, frontier, limited, omitted, found :=
        FollowEdge(w, seeds, head, edges[next], added, frontier, limited, omitted, found);
      CloseNext(w, foundBefore, found, head.id, next);
      ReportNext(w, omittedBefore, omitted, head.id, next);
      next := next + 1;
    }
    assert |added| < TRACE_MAX_ADDED ==> Closed(w, found, head.id);
    if |added| < TRACE_MAX_ADDED {
      HeadReported(w, found, frontier, omitted, head.id);
    }
  }

  /** One round of the loop over the edges of `head`. */
  method FollowEdge(w: World, seeds: seq<Id>, head: Memory, edge: Edge, added0: seq<Memory>, frontier0: seq<Memory>,
                    limited0: bool, omitted0: seq<Relation>, ghost found0: map<Id, nat>)
      returns (added: seq<Memory>, frontier: seq<Memory>, limited: bool, omitted: seq<Relation>,
               ghost found: map<Id, nat>)
    requires |added0| < TRACE_MAX_ADDED && head.depth < TRACE_MAX_DEPTH && edge in EdgesOf(w, head.id)
    requires Expanding(w, seeds, found0, added0, frontier0, head, limited0)
    requires Omitting(w, found0, frontier0, omitted0, head.id)
    ensures Expanding(w, seeds, found, added, frontier, head, limited)
    ensures Omitting(w, found, frontier, omitted, head.id)
    ensures omitted0 <= omitted && (edge.relation !in w.allowed ==> edge.relation in omitted)
    ensures found0.Keys <= found.Keys && (Step(w, head.id, edge) ==> edge.target in found)
    ensures |added0| < |added| || (added == added0 && frontier == frontier0)
  {
    added, frontier, limited, omitted, found := added0, frontier0, limited0, omitted0, found0;
    if edge.relation !in w.allowed {
      OmitOne(w, found, frontier, omitted, head.id, edge);
      omitted := omitted + [edge.relation];
    } else if edge.target !in seeds && !IsAdded(added, edge.target) && edge.target in w.rows && Admitted(w, edge) {
      AddKeepsExpanding(w, seeds, found, added, frontier, head, limited, edge);
      OmittingAfterAdd(w, found, frontier, omitted, head.id, Candidate(head, edge));
      added := added + [Candidate(head, edge)];
      frontier := frontier + [Candidate(head, edge)];
      found := found[edge.target := head.depth + 1];
      if |added| >= TRACE_MAX_ADDED {
        limited := true;
      }
    }
  }

  lemma AddLimitNoted(found: map<Id, nat>, added: seq<Memory>, frontier: seq<Memory>, limited: bool, m: Memory)
    requires LimitNoted(found, added, frontier, limited) && m.id !in found && |added| < TRACE_MAX_ADDED
    ensures LimitNoted(found[m.id := m.depth], added + [m], frontier + [m], limited || |added| + 1 == TRACE_MAX_ADDED)
  {
    AddToQueue(frontier, m);
    if AtBound(added) {
      var i :| 0 <= i < |added| && added[i].depth == TRACE_MAX_DEPTH;
      assert (added + [m])[i].depth == TRACE_MAX_DEPTH;
    }
  }

  lemma AddToQueue(frontier: seq<Memory>, m: Memory)
    ensures forall u :: InQueue(frontier, u) || u == m.id ==> InQueue(frontier + [m], u)
  {
    forall u | InQueue(frontier, u) || u == m.id
      ensures InQueue(frontier + [m], u)
    {
      if InQueue(frontier, u) {
        var i :| 0 <= i < |frontier| && frontier[i].id == u;
        assert (frontier + [m])[i].id == u;
      } else {
        assert (frontier + [m])[|frontier|].id == u;
      }
    }
  }

  lemma QueueTail(queue: seq<Memory>)
    requires queue != []
    ensures forall u :: InQueue(queue, u) && u != queue[0].id ==> InQueue(queue[1..], u)
  {
    forall u | InQueue(queue, u) && u != queue[0].id
      ensures InQueue(queue[1..], u)
    {
      var i :| 0 <= i < |queue| && queue[i].id == u;
      assert queue[1..][i - 1] == queue[i];
    }
  }

  /** The invariant while the head of the queue is being expanded. */
  ghost predicate ExpandedExcept(w: World, found: map<Id, nat>, frontier: seq<Memory>, head: Id) {
    forall u :: u in found && !InQueue(frontier, u) && u != head && found[u] < TRACE_MAX_DEPTH ==> Closed(w, found, u)
  }

  lemma AddKeepsExpanded(w: World, found: map<Id, nat>, frontier: seq<Memory>, head: Id, m: Memory)
    requires ExpandedExcept(w, found, frontier, head) && m.id !in found
    ensures ExpandedExcept(w, found[m.id := m.depth], frontier + [m], head)
  {
    AddToQueue(frontier, m);
  }

  lemma HeadIsAdded(w: World, seeds: seq<Id>, found: map<Id, nat>, added: seq<Memory>, head: Memory)
    requires Collected(w, seeds, found, added) && Sound(w, seeds, found, head) && head.depth == TRACE_MAX_DEPTH
    ensures AtBound(added)
  {
    assert IsAdded(added, head.id);
  }

  lemma Start(w: World, seeds: seq<Id>, frontier: seq<Memory>, found: map<Id, nat>)
    requires |frontier| == |seeds| && forall i :: 0 <= i < |seeds| ==> frontier[i] == Memory(seeds[i], 0, [])
    requires found == map v | v in seeds :: 0
    ensures Collected(w, seeds, found, []) && Queued(w, seeds, found, frontier, 0) && Shortest(w, seeds, found, 0)
    ensures Expanded(w, found, frontier)
    ensures forall u :: u in found ==> InQueue(frontier, u)
  {
    forall u | u in found
      ensures InQueue(frontier, u)
    {
      var i :| 0 <= i < |seeds| && seeds[i] == u;
      assert frontier[i].id == u;
    }
  }
}
