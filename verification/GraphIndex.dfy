/** The note graph: an index over the wiki that is rebuilt from the note files.

    `nodes` and `edges` stand for the `graph_nodes` and `graph_edges` tables, keyed by
    their primary keys; `updated_at` is not modelled. `notes` is the `notes` table, and a
    `Note` is what the parser read from one file. */
module GraphIndex {
  import opened Wrappers

  datatype Declared = Declared(target: Id, relation: Relation)
  datatype Row = Row(kind: string, title: string)
  datatype Note = Note(id: Id, kind: string, title: string, relations: seq<Declared>)
  datatype Node = Node(isNote: bool, kind: string, title: string, noteId: Option<Id>)
  datatype Edge = Edge(targetKind: string, weight: real, archetype: Option<string>)
  datatype EdgeKey = EdgeKey(source: Id, target: Id, relation: Relation)

  /** What a rebuild looks up: the notes table, the relation weights, and the node that
      stands for an id with no note (its kind and label are derived from the id's text). */
  datatype Catalog = Catalog(notes: map<Id, Row>, weights: map<Relation, real>, entity: Id -> Node)

  datatype Graph = Graph(nodes: map<Id, Node>, edges: map<EdgeKey, Edge>)

  // ------------------------------------------------------------- target nodes

  /** How a relation target is stored: from the notes table, or as a bare entity. */
  function TargetNode(c: Catalog, id: Id): Node {
    if id in c.notes then Node(true, c.notes[id].kind, c.notes[id].title, Some(id))
    else c.entity(id).(isNote := false, noteId := None)
  }

  function NoteNode(note: Note): Node {
    Node(true, note.kind, note.title, Some(note.id))
  }

  function EdgeTo(c: Catalog, target: Id, relation: Relation): Edge {
    Edge(TargetNode(c, target).kind, if relation in c.weights then c.weights[relation] else 0.5, None)
  }

  // ------------------------------------------------------------- what a rebuild does

  /** The first `n` relations of a note; self-loops are skipped. */
  ghost function WithRelations(g: Graph, c: Catalog, note: Note, n: nat): Graph
    requires n <= |note.relations|
  {
    if n == 0 then g
    else
      var prev := WithRelations(g, c, note, n - 1);
      var Declared(target, relation) := note.relations[n - 1];
      if target == note.id then prev
      else Graph(prev.nodes[target := TargetNode(c, target)],
                 prev.edges[EdgeKey(note.id, target, relation) := EdgeTo(c, target, relation)])
  }

  ghost function WithNote(g: Graph, c: Catalog, note: Note): Graph {
    WithRelations(Graph(g.nodes[note.id := NoteNode(note)], WithoutSource(g.edges, note.id)),
                  c, note, |note.relations|)
  }

  function WithoutSource(edges: map<EdgeKey, Edge>, id: Id): map<EdgeKey, Edge> {
    map k | k in edges && k.source != id :: edges[k]
  }

  ghost function WithNotes(g: Graph, c: Catalog, parsed: seq<Note>): Graph {
    if parsed == [] then g
    else WithNote(WithNotes(g, c, parsed[..|parsed| - 1]), c, parsed[|parsed| - 1])
  }

  ghost predicate Endpoint(edges: map<EdgeKey, Edge>, id: Id) {
    exists k :: k in edges && (k.source == id || k.target == id)
  }

  ghost function LiveEdges(g: Graph): map<EdgeKey, Edge> {
    map k | k in g.edges && k.target in g.nodes :: g.edges[k]
  }

  ghost function Pruned(g: Graph): Graph {
    var edges := LiveEdges(g);
    Graph(map id | id in g.nodes && (g.nodes[id].isNote || Endpoint(edges, id)) :: g.nodes[id], edges)
  }

  ghost function Rebuilt(g: Graph, c: Catalog, parsed: seq<Note>): Graph {
    Pruned(WithNotes(g, c, parsed))
  }

  // ------------------------------------------------------------------ the index

  class Index {
    var nodes: map<Id, Node>
    var edges: map<EdgeKey, Edge>

    ghost function State(): Graph
      reads this
    {
      Graph(nodes, edges)
    }

    constructor ()
      ensures State() == Graph(map[], map[])
    {
      nodes, edges := map[], map[];
    }

    method RebuildNote(c: Catalog, note: Note)
      modifies this
      ensures State() == WithNote(old(State()), c, note)
    {
      nodes := nodes[note.id := NoteNode(note)];
      edges := WithoutSource(edges, note.id);
      ghost var base := State();
      for i := 0 to |note.relations|
        invariant State() == WithRelations(base, c, note, i)
      {
        var Declared(target, relation) := note.relations[i];
        if target != note.id {
          nodes := nodes[target := TargetNode(c, target)];
          edges := edges[EdgeKey(note.id, target, relation) := EdgeTo(c, target, relation)];
        }
      }
    }

    /** A live run; a dry run only counts the notes. */
    method RebuildWiki(c: Catalog, parsed: seq<Note>, dryRun: bool)
        returns (rebuilt: nat, staleEdges: int, orphanNodes: int)
      modifies this
      ensures dryRun ==> State() == old(State()) && staleEdges == orphanNodes == 0
      ensures !dryRun ==> State() == Rebuilt(old(State()), c, parsed)
      ensures !dryRun ==> var written := WithNotes(old(State()), c, parsed);
                          staleEdges == |written.edges| - |edges| && orphanNodes == |written.nodes| - |nodes|
      ensures rebuilt == |parsed|
    {
      rebuilt, staleEdges, orphanNodes := |parsed|, 0, 0;
      if dryRun {
        return;
      }
      ghost var before := State();
      for i := 0 to |parsed|
        invariant State() == WithNotes(before, c, parsed[..i])
      {
        RebuildNote(c, parsed[i]);
        assert parsed[..i + 1][..i] == parsed[..i];
      }
      assert parsed[..|parsed|] == parsed;
      staleEdges, orphanNodes := Prune();
    }

    method Prune() returns (staleEdges: int, orphanNodes: int)
      modifies this
      ensures State() == Pruned(old(State()))
      ensures staleEdges == |old(edges)| - |edges| && orphanNodes == |old(nodes)| - |nodes|
    {
      var edgesBefore, nodesBefore := |edges|, |nodes|;
      edges := map k | k in edges && k.target in nodes :: edges[k];
      nodes := map id | id in nodes &&
                        (nodes[id].isNote || exists k :: k in edges && (k.source == id || k.target == id)) :: nodes[id];
      staleEdges, orphanNodes := edgesBefore - |edges|, nodesBefore - |nodes|;
    }

    /** A note that leaves the wiki: kept as an entity while something still points at it. */
    method DemoteOrDeleteNoteNode(c: Catalog, id: Id)
      modifies this`nodes
      ensures (exists k :: k in edges && k.target == id) ==>
                nodes == if id in old(nodes) then old(nodes)[id := TargetNode(c.(notes := map[]), id)] else old(nodes)
      ensures (!exists k :: k in edges && k.target == id) ==> nodes == old(nodes) - {id}
      ensures NoDanglingEdge(old(State())) ==> NoDanglingEdge(State())
    {
      if exists k :: k in edges && k.target == id {
        if id in nodes {
          nodes := nodes[id := c.entity(id).(isNote := false, noteId := None)];
        }
      } else {
        nodes := nodes - {id};
      }
    }
  }

  // -------------------------------------------------------------- what it yields

  ghost predicate NoDanglingEdge(g: Graph) {
    forall k :: k in g.edges ==> k.target in g.nodes
  }

  ghost predicate NoIsolatedEntity(g: Graph) {
    forall id :: id in g.nodes && !g.nodes[id].isNote ==> Endpoint(g.edges, id)
  }

  predicate TargetsIn(note: Note, n: nat, id: Id)
    requires n <= |note.relations|
  {
    id != note.id && exists i :: 0 <= i < n && note.relations[i].target == id
  }

  predicate Targets(note: Note, id: Id) {
    TargetsIn(note, |note.relations|, id)
  }

  predicate DeclaresIn(note: Note, n: nat, k: EdgeKey)
    requires n <= |note.relations|
  {
    k.source == note.id && k.target != note.id
    && exists i :: 0 <= i < n && note.relations[i] == Declared(k.target, k.relation)
  }

  predicate Declares(note: Note, k: EdgeKey) {
    DeclaresIn(note, |note.relations|, k)
  }

  /** The last file that claims `id`, if any. */
  function Claiming(parsed: seq<Note>, id: Id): Option<Note> {
    if parsed == [] then None
    else if parsed[|parsed| - 1].id == id then Some(parsed[|parsed| - 1])
    else Claiming(parsed[..|parsed| - 1], id)
  }

  /** What the last write to node `id` stores, if there is one. */
  ghost function LastWrite(c: Catalog, parsed: seq<Note>, id: Id): Option<Node> {
    if parsed == [] then None
    else
      var note := parsed[|parsed| - 1];
      if Targets(note, id) then Some(TargetNode(c, id))
      else if note.id == id then Some(NoteNode(note))
      else LastWrite(c, parsed[..|parsed| - 1], id)
  }

  lemma {:induction false} RelationsEffect(g: Graph, c: Catalog, note: Note, n: nat)
    requires n <= |note.relations|
    ensures var h := WithRelations(g, c, note, n);
            && (forall id :: id in h.nodes <==> id in g.nodes || TargetsIn(note, n, id))
            && (forall id :: id in h.nodes ==>
                  h.nodes[id] == if TargetsIn(note, n, id) then TargetNode(c, id) else g.nodes[id])
            && (forall k :: k in h.edges <==> k in g.edges || DeclaresIn(note, n, k))
            && (forall k :: k in h.edges ==>
                  h.edges[k] == if DeclaresIn(note, n, k) then EdgeTo(c, k.target, k.relation) else g.edges[k])
  {
    if n > 0 {
      RelationsEffect(g, c, note, n - 1);
      var Declared(target, relation) := note.relations[n - 1];
      forall id
        ensures TargetsIn(note, n, id) <==> TargetsIn(note, n - 1, id) || (id == target && target != note.id)
      {
      }
      forall k
        ensures DeclaresIn(note, n, k) <==>
                DeclaresIn(note, n - 1, k) || (k == EdgeKey(note.id, target, relation) && target != note.id)
      {
      }
    }
  }

  lemma NoteEffect(g: Graph, c: Catalog, note: Note)
    ensures var h := WithNote(g, c, note);
            && (forall id :: id in h.nodes <==> id in g.nodes || id == note.id || Targets(note, id))
            && (forall id :: id in h.nodes ==>
                  h.nodes[id] == if Targets(note, id) then TargetNode(c, id)
                                 else if id == note.id then NoteNode(note) else g.nodes[id])
            && (forall k :: k in h.edges <==> if k.source == note.id then Declares(note, k) else k in g.edges)
            && (forall k :: k in h.edges ==>
                  h.edges[k] == if k.source == note.id then EdgeTo(c, k.target, k.relation) else g.edges[k])
  {
    RelationsEffect(Graph(g.nodes[note.id := NoteNode(note)], WithoutSource(g.edges, note.id)),
                    c, note, |note.relations|);
  }

  /** The whole pass over the notes, before pruning, as a function of the last writes. */
  lemma {:induction false} NotesEffect(g: Graph, c: Catalog, parsed: seq<Note>)
    ensures var h := WithNotes(g, c, parsed);
            && (forall id :: id in h.nodes <==> id in g.nodes || LastWrite(c, parsed, id).Some?)
            && (forall id :: id in h.nodes ==>
                  h.nodes[id] == if LastWrite(c, parsed, id).Some? then LastWrite(c, parsed, id).value else g.nodes[id])
            && (forall k :: k in h.edges <==>
                  match Claiming(parsed, k.source) case Some(note) => Declares(note, k) case None => k in g.edges)
            && (forall k :: k in h.edges ==>
                  h.edges[k] == if Claiming(parsed, k.source).Some? then EdgeTo(c, k.target, k.relation)
                    else g.edges[k])
  {
    if parsed != [] {
      var rest, note := parsed[..|parsed| - 1], parsed[|parsed| - 1];
      NotesEffect(g, c, rest);
      NoteEffect(WithNotes(g, c, rest), c, note);
    }
  }

  /** Every claimed node is written, and so is every target that some claim declares. */
  lemma {:induction false} ClaimsAreWritten(c: Catalog, parsed: seq<Note>, k: EdgeKey)
    requires Claiming(parsed, k.source).Some?
    ensures LastWrite(c, parsed, k.source).Some?
    ensures Declares(Claiming(parsed, k.source).value, k) ==> LastWrite(c, parsed, k.target).Some?
  {
    var note := parsed[|parsed| - 1];
    if note.id != k.source {
      ClaimsAreWritten(c, parsed[..|parsed| - 1], k);
    } else if Declares(note, k) {
      var i :| 0 <= i < |note.relations| && note.relations[i] == Declared(k.target, k.relation);
      assert note.relations[i].target == k.target;
    }
  }

  /** After a live rebuild the edges out of every parsed note are exactly the relations its
      file declares, minus self-loops; no edge dangles and no entity is isolated. */
  lemma RebuildIsExact(g: Graph, c: Catalog, parsed: seq<Note>)
    ensures var h := Rebuilt(g, c, parsed);
            && NoDanglingEdge(h) && NoIsolatedEntity(h)
            && (forall k: EdgeKey :: Claiming(parsed, k.source).Some? ==>
                  (k in h.edges <==> Declares(Claiming(parsed, k.source).value, k)))
            && (forall k :: k in h.edges && Claiming(parsed, k.source).Some? ==>
                h.edges[k] == EdgeTo(c, k.target, k.relation))
  {
    NotesEffect(g, c, parsed);
    forall k: EdgeKey | Claiming(parsed, k.source).Some?
      ensures k in Rebuilt(g, c, parsed).edges <==> Declares(Claiming(parsed, k.source).value, k)
    {
      ClaimsAreWritten(c, parsed, k);
    }
  }

  ghost function FinalNode(g: Graph, c: Catalog, parsed: seq<Note>, id: Id): Option<Node> {
    if LastWrite(c, parsed, id).Some? then LastWrite(c, parsed, id)
    else if id in g.nodes then Some(g.nodes[id]) else None
  }

  /** A node survives a rebuild as its last write, or as it was, unless it is an isolated entity. */
  lemma RebuiltNode(g: Graph, c: Catalog, parsed: seq<Note>, id: Id)
    ensures var h, v := Rebuilt(g, c, parsed), FinalNode(g, c, parsed, id);
            && (id in h.nodes <==> v.Some? && (v.value.isNote || Endpoint(h.edges, id)))
            && (id in h.nodes ==> h.nodes[id] == v.value)
  {
    NotesEffect(g, c, parsed);
  }

  lemma RebuiltEdge(g: Graph, c: Catalog, parsed: seq<Note>, k: EdgeKey)
    ensures var h := Rebuilt(g, c, parsed);
            && (k in h.edges <==> if Claiming(parsed, k.source).Some? then Declares(Claiming(parsed, k.source).value, k)
                                  else k in g.edges && FinalNode(g, c, parsed, k.target).Some?)
            && (k in h.edges ==>
                  h.edges[k] == if Claiming(parsed, k.source).Some? then EdgeTo(c, k.target, k.relation)
                    else g.edges[k])
  {
    NotesEffect(g, c, parsed);
    if Claiming(parsed, k.source).Some? {
      ClaimsAreWritten(c, parsed, k);
    }
  }

  /** A node is a note exactly when it carries its own id as the note's. */
  ghost predicate NodesConsistent(g: Graph) {
    forall id :: id in g.nodes ==> g.nodes[id].noteId == if g.nodes[id].isNote then Some(id) else None
  }

  /** A node describes a row of the notes table. */
  predicate ShowsRow(node: Node, row: Row) {
    node.isNote && node.kind == row.kind && node.title == row.title
  }

  /** What a rebuild stores. Nodes stay consistent. Every node it writes shows its row of the
      notes table or a file with its id; without either it is an entity. An edge has the kind
      of its target's row, or of the entity, and the weight of its relation, or one half. */
  lemma RebuildStores(g: Graph, c: Catalog, parsed: seq<Note>)
    ensures NodesConsistent(g) ==> NodesConsistent(Rebuilt(g, c, parsed))
    ensures var h := Rebuilt(g, c, parsed);
            forall id :: id in h.nodes && (exists n :: n in parsed && (n.id == id || Targets(n, id))) ==>
              || (id in c.notes && ShowsRow(h.nodes[id], c.notes[id]))
              || (exists n :: n in parsed && n.id == id && ShowsRow(h.nodes[id], Row(n.kind, n.title)))
              || (id !in c.notes && !h.nodes[id].isNote && h.nodes[id].kind == c.entity(id).kind
                  && h.nodes[id].title == c.entity(id).title)
    ensures var h := Rebuilt(g, c, parsed);
            forall k :: k in h.edges && Claiming(parsed, k.source).Some? ==>
              && h.edges[k].targetKind == (if k.target in c.notes then c.notes[k.target].kind
                                           else c.entity(k.target).kind)
              && h.edges[k].weight == (if k.relation in c.weights then c.weights[k.relation] else 1.0 / 2.0)
              && h.edges[k].archetype == None
  {
    var h := Rebuilt(g, c, parsed);
    forall id | id in h.nodes
      ensures NodesConsistent(g) ==> h.nodes[id].noteId == if h.nodes[id].isNote then Some(id) else None
      ensures (exists n :: n in parsed && (n.id == id || Targets(n, id))) ==>
                || (id in c.notes && ShowsRow(h.nodes[id], c.notes[id]))
                || (exists n :: n in parsed && n.id == id && ShowsRow(h.nodes[id], Row(n.kind, n.title)))
                || (id !in c.notes && !h.nodes[id].isNote && h.nodes[id].kind == c.entity(id).kind
                    && h.nodes[id].title == c.entity(id).title)
    {
      RebuiltNode(g, c, parsed, id);
      LastWriteOrigin(c, parsed, id);
    }
    RebuildIsExact(g, c, parsed);
  }

  /** A second rebuild changes nothing. */
  lemma RebuildIsIdempotent(g: Graph, c: Catalog, parsed: seq<Note>)
    ensures Rebuilt(Rebuilt(g, c, parsed), c, parsed) == Rebuilt(g, c, parsed)
  {
    var once := Rebuilt(g, c, parsed);
    var twice := Rebuilt(once, c, parsed);
    RebuildIsExact(g, c, parsed);
    forall k: EdgeKey
      ensures k in twice.edges <==> k in once.edges
      ensures k in once.edges ==> twice.edges[k] == once.edges[k]
    {
      RebuiltEdge(g, c, parsed, k);
      RebuiltEdge(once, c, parsed, k);
    }
    assert twice.edges == once.edges;
    forall id
      ensures id in twice.nodes <==> id in once.nodes
      ensures id in once.nodes ==> twice.nodes[id] == once.nodes[id]
    {
      RebuiltNode(g, c, parsed, id);
      RebuiltNode(once, c, parsed, id);
    }
    assert twice.nodes == once.nodes;
  }

  // ---------------------------------------------------- when note order does not matter

  ghost predicate DistinctIds(parsed: seq<Note>) {
    forall i, j :: 0 <= i < j < |parsed| ==> parsed[i].id != parsed[j].id
  }

  /** Every note that some other parsed note points at is stored, as a target, exactly as
      its own file describes it. */
  ghost predicate TargetsAgree(c: Catalog, parsed: seq<Note>) {
    forall m, n :: m in parsed && n in parsed && Targets(m, n.id) ==> TargetNode(c, n.id) == NoteNode(n)
  }

  lemma {:induction false} ClaimIsTheNote(parsed: seq<Note>, id: Id)
    requires DistinctIds(parsed)
    ensures Claiming(parsed, id).Some? ==> Claiming(parsed, id).value in parsed && Claiming(parsed, id).value.id == id
    ensures forall n :: n in parsed && n.id == id ==> Claiming(parsed, id) == Some(n)
  {
    if parsed != [] {
      var last := parsed[|parsed| - 1];
      ClaimIsTheNote(parsed[..|parsed| - 1], id);
      forall n | n in parsed && n.id == id
        ensures Claiming(parsed, id) == Some(n)
      {
        if n != last { assert n in parsed[..|parsed| - 1]; }
      }
    }
  }

  /** Some last write exists exactly when the id is claimed or targeted, and it comes from
      one of those notes. */
  lemma {:induction false} LastWriteOrigin(c: Catalog, parsed: seq<Note>, id: Id)
    ensures (LastWrite(c, parsed, id).Some? && (exists m :: m in parsed && Targets(m, id))
             && LastWrite(c, parsed, id) == Some(TargetNode(c, id)))
         || (LastWrite(c, parsed, id).Some?
             && exists n :: n in parsed && n.id == id && LastWrite(c, parsed, id) == Some(NoteNode(n)))
         || (LastWrite(c, parsed, id).None? && forall n :: n in parsed ==> n.id != id && !Targets(n, id))
  {
    if parsed != [] {
      var rest, last := parsed[..|parsed| - 1], parsed[|parsed| - 1];
      assert last in parsed;
      if !Targets(last, id) && last.id != id {
        LastWriteOrigin(c, rest, id);
        assert forall n :: n in rest ==> n in parsed;
        assert forall n :: n in parsed ==> n in rest || n == last;
      }
    }
  }

  lemma SameMembers(a: seq<Note>, b: seq<Note>)
    requires multiset(a) == multiset(b)
    ensures forall n :: n in a <==> n in b
  {
    forall n ensures n in a <==> n in b {
      assert n in multiset(a) <==> n in multiset(b);
    }
  }

  lemma AgreedWrites(c: Catalog, a: seq<Note>, b: seq<Note>, id: Id)
    requires DistinctIds(a) && TargetsAgree(c, a) && forall n :: n in a <==> n in b
    ensures LastWrite(c, a, id) == LastWrite(c, b, id)
  {
    LastWriteOrigin(c, a, id);
    LastWriteOrigin(c, b, id);
    ClaimIsTheNote(a, id);
  }

  /** With distinct ids, the order of the notes is irrelevant when the targets agree ... */
  lemma OrderDoesNotMatter(g: Graph, c: Catalog, a: seq<Note>, b: seq<Note>)
    requires DistinctIds(a) && DistinctIds(b) && TargetsAgree(c, a) && multiset(a) == multiset(b)
    ensures Rebuilt(g, c, a) == Rebuilt(g, c, b)
  {
    SameMembers(a, b);
    var x, y := Rebuilt(g, c, a), Rebuilt(g, c, b);
    forall k: EdgeKey
      ensures k in x.edges <==> k in y.edges
      ensures k in x.edges ==> x.edges[k] == y.edges[k]
    {
      RebuiltEdge(g, c, a, k);
      RebuiltEdge(g, c, b, k);
      ClaimIsTheNote(a, k.source);
      ClaimIsTheNote(b, k.source);
      AgreedWrites(c, a, b, k.target);
    }
    assert x.edges == y.edges;
    forall id
      ensures id in x.nodes <==> id in y.nodes
      ensures id in x.nodes ==> x.nodes[id] == y.nodes[id]
    {
      RebuiltNode(g, c, a, id);
      RebuiltNode(g, c, b, id);
      AgreedWrites(c, a, b, id);
    }
    assert x.nodes == y.nodes;
  }

  lemma LastWordDiffers(g: Graph, c: Catalog, rest: seq<Note>, m: Note, n: Note)
    requires Targets(m, n.id) && TargetNode(c, n.id) != NoteNode(n)
    ensures Rebuilt(g, c, rest + [n, m]) != Rebuilt(g, c, rest + [m, n])
  {
    var a, b := rest + [n, m], rest + [m, n];
    assert a[|a| - 1] == m && b[|b| - 1] == n;
    assert LastWrite(c, a, n.id) == Some(TargetNode(c, n.id));
    assert LastWrite(c, b, n.id) == Some(NoteNode(n));
    RebuiltNode(g, c, a, n.id);
    RebuiltNode(g, c, b, n.id);
  }

  lemma TwoLast(s: seq<Note>, m: Note, n: Note) returns (rest: seq<Note>)
    requires m in s && n in s && m != n
    ensures multiset(rest + [n, m]) == multiset(s) && multiset(rest + [m, n]) == multiset(s)
  {
    var once := Without(s, m);
    rest := Without(once, n);
    PutBack(once, n);
    PutBack(s, m);
    AppendTwo(rest, n, m);
    AppendTwo(rest, m, n);
  }

  lemma PutBack(s: seq<Note>, m: Note)
    requires m in s
    ensures multiset(s) == multiset(Without(s, m)) + multiset{m}
  {
  }

  lemma AppendTwo(rest: seq<Note>, m: Note, n: Note)
    ensures multiset(rest + [m, n]) == multiset(rest) + multiset{m} + multiset{n}
  {
    assert rest + [m, n] == rest + [m] + [n];
  }

  ghost predicate SameRebuild(g: Graph, c: Catalog, a: seq<Note>, b: seq<Note>) {
    Rebuilt(g, c, a) == Rebuilt(g, c, b)
  }

  ghost predicate OrderIrrelevant(g: Graph, c: Catalog, parsed: seq<Note>) {
    forall a, b :: multiset(a) == multiset(parsed) && multiset(b) == multiset(parsed) ==> SameRebuild(g, c, a, b)
  }

  /** ... and only then: the condition is exact. */
  lemma OrderMattersExactlyWhen(g: Graph, c: Catalog, parsed: seq<Note>)
    requires DistinctIds(parsed)
    ensures TargetsAgree(c, parsed) <==> OrderIrrelevant(g, c, parsed)
  {
    if TargetsAgree(c, parsed) {
      forall a, b | multiset(a) == multiset(parsed) && multiset(b) == multiset(parsed)
        ensures SameRebuild(g, c, a, b)
      {
        PermutationKeepsDistinct(parsed, a);
        PermutationKeepsDistinct(parsed, b);
        OrderDoesNotMatter(g, c, parsed, a);
        OrderDoesNotMatter(g, c, parsed, b);
      }
    } else {
      var m, n :| m in parsed && n in parsed && Targets(m, n.id) && TargetNode(c, n.id) != NoteNode(n);
      DisagreementShows(g, c, parsed, m, n);
    }
  }

  lemma DisagreementShows(g: Graph, c: Catalog, parsed: seq<Note>, m: Note, n: Note)
    requires m in parsed && n in parsed && Targets(m, n.id) && TargetNode(c, n.id) != NoteNode(n) && m != n
    ensures !OrderIrrelevant(g, c, parsed)
  {
    var rest := TwoLast(parsed, m, n);
    LastWordDiffers(g, c, rest, m, n);
    assert !SameRebuild(g, c, rest + [n, m], rest + [m, n]);
  }

  lemma PermutationKeepsDistinct(a: seq<Note>, b: seq<Note>)
    requires DistinctIds(a) && multiset(a) == multiset(b)
    ensures DistinctIds(b)
  {
    SameMembers(a, b);
    forall i, j | 0 <= i < j < |b|
      ensures b[i].id != b[j].id
    {
      if b[i].id == b[j].id {
        assert b[i] in b && b[j] in b;
        var k :| 0 <= k < |a| && a[k] == b[i];
        var l :| 0 <= l < |a| && a[l] == b[j];
        assert k == l;
        OnlyOnce(a, k);
        Twice(b, i, j);
      }
    }
  }

  lemma OnlyOnce(a: seq<Note>, k: nat)
    requires DistinctIds(a) && k < |a|
    ensures multiset(a)[a[k]] == 1
  {
    assert a == a[..k] + [a[k]] + a[k + 1..];
    assert a[k] !in a[..k] && a[k] !in a[k + 1..];
  }

  lemma Twice(b: seq<Note>, i: nat, j: nat)
    requires i < j < |b| && b[i] == b[j]
    ensures multiset(b)[b[i]] >= 2
  {
    assert b == b[..j] + [b[j]] + b[j + 1..];
    assert b[..j][i] == b[i];
    assert b[i] in b[..j];
  }

  function Without(s: seq<Note>, n: Note): (r: seq<Note>)
    requires n in s
    ensures multiset(r) == multiset(s) - multiset{n}
    ensures forall x :: x in s && x != n ==> x in r
  {
    if s[0] == n then (assert s == [s[0]] + s[1..]; s[1..])
    else (assert s == [s[0]] + s[1..]; [s[0]] + Without(s[1..], n))
  }
}
