/** The archive table and the band index under ingest and reprocess steps.

    `checked` counts the reprocesses of an archive that have passed the check of its row and
    not yet written: they close the connection in between, so anything may happen. `indexed`
    is a history variable: the text each archive was last classified with. A content hash
    stands for the pair of SHA-256 and byte size; the table's unique index on it is part of
    the model. */
module ArchiveStore {
  import opened Wrappers
  import opened SimHash
  import opened ArtifactIdentity

  /** `format` is the one in which the archive's file is read. Every archive keeps the suffix
      of its file, so it never changes. */
  datatype Row = Row(format: Format, state: DuplicateState, canonical: Option<Id>, fingerprint: Option<Fingerprint>,
                     content: Option<Id>, rank: int)
  datatype Bucket = Bucket(archive: Id, band: nat, value: nat)
  datatype Store = Store(rows: map<Id, Row>, buckets: set<Bucket>, checked: multiset<Id>, indexed: map<Id, Tokens>)

  const EMPTY: Store := Store(map[], {}, multiset{}, map[])

  /** A parsed artifact, and what the classification reads beside the store. */
  datatype Document = Document(format: Format, tokens: Tokens)
  datatype Reading = Reading(texts: map<Id, Tokens>, digests: Digests)

  function PrintOf(doc: Document): Fingerprint {
    IdentityFingerprint(doc.format, doc.tokens)
  }

  predicate IsDuplicate(state: DuplicateState) {
    state == ExactDuplicate || state == CanonicalDuplicate
  }

  predicate DuplicateRow(rows: map<Id, Row>, id: Id) {
    id in rows && IsDuplicate(rows[id].state)
  }

  // -------------------------------------------------------------- classification

  predicate SameFingerprint(rows: map<Id, Row>, id: Id, fingerprint: Fingerprint, c: Id) {
    c in rows && c != id && rows[c].fingerprint == Some(fingerprint) && !IsDuplicate(rows[c].state)
  }

  /** Some other original carries the fingerprint. */
  ghost predicate Matched(rows: map<Id, Row>, id: Id, fingerprint: Fingerprint) {
    exists c :: SameFingerprint(rows, id, fingerprint, c)
  }

  /** `ORDER BY ingested_at, id LIMIT 1` */
  ghost predicate IsOldestMatch(rows: map<Id, Row>, id: Id, fingerprint: Fingerprint, c: Id) {
    SameFingerprint(rows, id, fingerprint, c)
    && forall d :: SameFingerprint(rows, id, fingerprint, d) ==> rows[c].rank <= rows[d].rank
  }

  function BucketsOf(id: Id, tokens: Tokens, digests: Digests): set<Bucket> {
    var shingles := Shingles(tokens);
    if shingles == [] then {}
    else
      var v := Signature(shingles, digests);
      {Bucket(id, 0, Band(v, 0)), Bucket(id, 1, Band(v, 1)), Bucket(id, 2, Band(v, 2)), Bucket(id, 3, Band(v, 3))}
  }

  /** The archives that share a band with the text. */
  function Candidates(s: Store, id: Id, tokens: Tokens, digests: Digests): set<Id> {
    set b | b in s.buckets && b.archive in s.rows && b.archive != id
            && Bucket(id, b.band, b.value) in BucketsOf(id, tokens, digests) :: b.archive
  }

  function TextOf(r: Reading, id: Id): Tokens {
    if id in r.texts then r.texts[id] else []
  }

  ghost predicate IsScored(doc: Document, r: Reading, c: Scored) {
    var text := TextOf(r, c.id);
    && c.jaccard == Jaccard(ShingleSet(doc.tokens), ShingleSet(text))
    && IsOverlap(doc.tokens, text, c.overlap, c.related)
  }

  /** Each candidate listed once, in the order the index returned them ... */
  ghost predicate ListsOnce(cs: seq<Scored>, ids: set<Id>) {
    && (forall i :: 0 <= i < |cs| ==> cs[i].id in ids)
    && (forall id :: id in ids ==> exists i :: 0 <= i < |cs| && cs[i].id == id)
    && (forall i, j :: 0 <= i < j < |cs| ==> cs[i].id != cs[j].id)
  }

  /** ... and scored against the text. */
  ghost predicate AllScored(cs: seq<Scored>, doc: Document, r: Reading) {
    forall i :: 0 <= i < |cs| ==> IsScored(doc, r, cs[i])
  }

  ghost predicate ScoresCandidates(cs: seq<Scored>, ids: set<Id>, doc: Document, r: Reading) {
    ListsOnce(cs, ids) && AllScored(cs, doc, r)
  }

  ghost predicate IsVerdict(s: Store, id: Id, doc: Document, r: Reading, v: Verdict) {
    if Matched(s.rows, id, PrintOf(doc))
    then v.state == CanonicalDuplicate && v.canonical.Some?
         && IsOldestMatch(s.rows, id, PrintOf(doc), v.canonical.value)
    else exists cs, best :: ScoresCandidates(cs, Candidates(s, id, doc.tokens, r.digests), doc, r)
                            && IsBest(cs, best) && v == Decide(best, AnyOverlap(cs))
  }

  method ScoreOne(id: Id, doc: Document, r: Reading) returns (c: Scored)
    ensures c.id == id && IsScored(doc, r, c)
  {
    var text := TextOf(r, id);
    var overlap, related := PrefixSuffixOverlap(doc.tokens, text);
    c := Scored(id, Jaccard(ShingleSet(doc.tokens), ShingleSet(text)), overlap, related);
  }

  method ScoreCandidates(ids: set<Id>, doc: Document, r: Reading) returns (cs: seq<Scored>)
    ensures ScoresCandidates(cs, ids, doc, r)
  {
    cs := [];
    var todo := ids;
    ghost var done: set<Id> := {};
    NothingScored(doc, r);
    while todo != {}
      invariant done !! todo && done + todo == ids
      invariant ScoresCandidates(cs, done, doc, r)
    {
      var id :| id in todo;
      var c := ScoreOne(id, doc, r);
      AddScore(cs, done, doc, r, c);
      cs, todo, done := cs + [c], todo - {id}, done + {id};
    }
    assert done == ids;
  }

  lemma NothingScored(doc: Document, r: Reading)
    ensures ScoresCandidates([], {}, doc, r)
  {
  }

  lemma AddScore(cs: seq<Scored>, ids: set<Id>, doc: Document, r: Reading, c: Scored)
    requires ScoresCandidates(cs, ids, doc, r) && IsScored(doc, r, c) && c.id !in ids
    ensures ScoresCandidates(cs + [c], ids + {c.id}, doc, r)
  {
    AddListed(cs, ids, c);
  }

  lemma AddListed(cs: seq<Scored>, ids: set<Id>, c: Scored)
    requires ListsOnce(cs, ids) && c.id !in ids
    ensures ListsOnce(cs + [c], ids + {c.id})
  {
    var after := cs + [c];
    forall id | id in ids + {c.id}
      ensures exists i :: 0 <= i < |after| && after[i].id == id
    {
      if id in ids {
        var i :| 0 <= i < |cs| && cs[i].id == id;
        assert after[i].id == id;
      } else {
        assert after[|cs|].id == id;
      }
    }
  }

  method Classify(s: Store, id: Id, doc: Document, r: Reading) returns (v: Verdict)
    ensures IsVerdict(s, id, doc, r, v)
  {
    var matches := set c | c in s.rows && SameFingerprint(s.rows, id, PrintOf(doc), c);
    if matches != {} {
      var c :| c in matches;
      var todo := matches - {c};
      while todo != {}
        invariant todo <= matches && c in matches
        invariant forall d :: d in matches - todo ==> s.rows[c].rank <= s.rows[d].rank
      {
        var d :| d in todo;
        if s.rows[d].rank < s.rows[c].rank {
          c := d;
        }
        todo := todo - {d};
      }
      assert SameFingerprint(s.rows, id, PrintOf(doc), c);
      return Verdict(CanonicalDuplicate, Some(c));
    }
    assert forall c :: SameFingerprint(s.rows, id, PrintOf(doc), c) ==> c in matches;
    var cs := ScoreCandidates(Candidates(s, id, doc.tokens, r.digests), doc, r);
    var best, overlapSeen := PickBest(cs);
    return Decide(best, overlapSeen);
  }

  // ------------------------------------------------------------- a file that has grown

  /** A file that has grown: an archived candidate's text is a proper beginning of it. */
  ghost predicate HasGrown(s: Store, id: Id, doc: Document, r: Reading, c: Id) {
    && !Matched(s.rows, id, PrintOf(doc))
    && c in Candidates(s, id, doc.tokens, r.digests) && TextOf(r, c) != [] && TextOf(r, c) < doc.tokens
  }

  lemma GrownScore(doc: Document, r: Reading, x: Scored)
    requires TextOf(r, x.id) != [] && TextOf(r, x.id) < doc.tokens && IsScored(doc, r, x)
    ensures Score(x) == 1.0
    ensures OverlapCounts(x) <==> ShingleSet(doc.tokens) != ShingleSet(TextOf(r, x.id))
  {
    FullOverlapExactlyWhen(doc.tokens, TextOf(r, x.id), x.overlap, x.related);
    JaccardMeasures(ShingleSet(doc.tokens), ShingleSet(TextOf(r, x.id)));
  }

  lemma BestIsHighest(cs: seq<Scored>, best: Option<Scored>, i: nat)
    requires IsBest(cs, best) && i < |cs| && Score(cs[i]) > 0.0
    ensures best.Some? && Score(best.value) >= Score(cs[i])
  {
  }

  /** It is related by overlap as soon as it has a new shingle. */
  lemma GrownFileIsRelated(s: Store, id: Id, doc: Document, r: Reading, v: Verdict, c: Id)
    requires IsVerdict(s, id, doc, r, v) && HasGrown(s, id, doc, r, c)
    requires ShingleSet(doc.tokens) != ShingleSet(TextOf(r, c))
    ensures v.state == OverlapRelated && v.canonical.Some?
  {
    var cs: seq<Scored>, best :| ScoresCandidates(cs, Candidates(s, id, doc.tokens, r.digests), doc, r)
                    && IsBest(cs, best) && v == Decide(best, AnyOverlap(cs));
    var i :| 0 <= i < |cs| && cs[i].id == c;
    GrownScore(doc, r, cs[i]);
    BestIsHighest(cs, best, i);
  }

  /** Growth by repetition alone adds no shingle; with no other candidate it makes the file a
      duplicate. So such a file is related by overlap if and only if it has a new shingle. */
  lemma GrownFileExactlyWhen(s: Store, id: Id, doc: Document, r: Reading, v: Verdict, c: Id)
    requires IsVerdict(s, id, doc, r, v) && HasGrown(s, id, doc, r, c)
    requires Candidates(s, id, doc.tokens, r.digests) == {c}
    ensures v == Verdict(if ShingleSet(doc.tokens) != ShingleSet(TextOf(r, c)) then OverlapRelated
                         else CanonicalDuplicate,
                         Some(c))
  {
    var cs: seq<Scored>, best :| ScoresCandidates(cs, {c}, doc, r) && IsBest(cs, best)
                                && v == Decide(best, AnyOverlap(cs));
    OnlyOneListed(cs, c);
    GrownScore(doc, r, cs[0]);
    OnlyOneIsBest(cs, best);
  }

  lemma OnlyOneListed(cs: seq<Scored>, c: Id)
    requires ListsOnce(cs, {c})
    ensures |cs| == 1 && cs[0].id == c
  {
    var i :| 0 <= i < |cs| && cs[i].id == c;
    assert cs[|cs| - 1].id == cs[0].id;
  }

  lemma OnlyOneIsBest(cs: seq<Scored>, best: Option<Scored>)
    requires |cs| == 1 && IsBest(cs, best) && Score(cs[0]) > 0.0
    ensures best == Some(cs[0]) && (AnyOverlap(cs) <==> OverlapCounts(cs[0]))
  {
  }

  // ---------------------------------------------------------------------- steps

  function WithVerdict(s: Store, id: Id, doc: Document, digests: Digests, v: Verdict): Store
    requires id in s.rows
  {
    var kept := set b | b in s.buckets && b.archive != id;
    Store(s.rows[id := s.rows[id].(state := v.state, canonical := v.canonical, fingerprint := Some(PrintOf(doc)))],
          if IsDuplicate(v.state) then kept else kept + BucketsOf(id, doc.tokens, digests),
          s.checked, s.indexed[id := doc.tokens])
  }

  /** The ways the store changes. `LateExact` is the second half of an ingest whose lookup
      ran before other steps. A reprocess is a `Check` of the row and, if the row passes and
      the file can be read, later a `Commit` of what it then holds, read in the row's format. */
  datatype Event = Ingest(id: Id, content: Id, rank: int, doc: Document, reading: Reading)
                 | LateExact(id: Id, canonical: Id, rank: int)
                 | Check(id: Id)
                 | Commit(id: Id, content: Id, tokens: Tokens, reading: Reading)
                 | Migrate(id: Id, format: Format, known: Option<Id>, rank: int)

  predicate Taken(s: Store, content: Id, except: Id) {
    exists c :: c in s.rows && c != except && s.rows[c].content == Some(content)
  }

  function NewRow(format: Format, content: Option<Id>, rank: int): Row {
    Row(format, Unique, None, None, content, rank)
  }

  function Inserted(s: Store, id: Id, row: Row): Store {
    s.(rows := s.rows[id := row])
  }

  /** Shares the file, and so the format, of the archive it duplicates. */
  function ExactRow(rows: map<Id, Row>, canonical: Id, rank: int): Row
    requires canonical in rows
  {
    Row(rows[canonical].format, ExactDuplicate, Some(canonical), None, None, rank)
  }

  function Reread(s: Store, id: Id, content: Id): Store
    requires id in s.rows
  {
    s.(rows := s.rows[id := s.rows[id].(content := Some(content))])
  }

  /** A reprocess goes on unless the row is a duplicate that points somewhere. */
  predicate Passes(rows: map<Id, Row>, id: Id) {
    id in rows && !(IsDuplicate(rows[id].state) && rows[id].canonical.Some?)
  }

  function Resumed(s: Store, id: Id): Store {
    s.(checked := s.checked - multiset{id})
  }

  ghost predicate Next(s: Store, t: Store, e: Event) {
    match e
    case Ingest(id, content, rank, doc, r) =>
      if id in s.rows then t == s
      else if Taken(s, content, id) then
        exists c :: c in s.rows && s.rows[c].content == Some(content) && t == Inserted(s, id, ExactRow(s.rows, c, rank))
      else
        var u := Inserted(s, id, NewRow(doc.format, Some(content), rank));
        exists v :: IsVerdict(u, id, doc, r, v) && t == WithVerdict(u, id, doc, r.digests, v)
    case LateExact(id, canonical, rank) =>
      t == if id in s.rows || canonical !in s.rows then s else Inserted(s, id, ExactRow(s.rows, canonical, rank))
    case Check(id) =>
      t == if Passes(s.rows, id) then s.(checked := s.checked + multiset{id}) else s
    case Commit(id, content, tokens, r) =>
      && id in s.checked && id in s.rows
      && if Taken(s, content, id) then t == Resumed(s, id)
         else
           var u, doc := Reread(Resumed(s, id), id, content), Document(s.rows[id].format, tokens);
           exists v :: IsVerdict(u, id, doc, r, v) && t == WithVerdict(u, id, doc, r.digests, v)
    case Migrate(id, format, known, rank) =>
      t == if id in s.rows || (known.Some? && Taken(s, known.value, id)) then s
           else Inserted(s, id, NewRow(format, known, rank))
  }

  /** The tables as a mutable object. */
  class Archive {
    var rows: map<Id, Row>
    var buckets: set<Bucket>
    ghost var checked: multiset<Id>
    ghost var indexed: map<Id, Tokens>

    ghost function State(): Store
      reads this
    {
      Store(rows, buckets, checked, indexed)
    }

    constructor ()
      ensures State() == EMPTY
    {
      rows, buckets, checked, indexed := map[], {}, multiset{}, map[];
    }

    method IngestArtifact(id: Id, content: Id, rank: int, doc: Document, r: Reading)
      modifies this
      ensures Next(old(State()), State(), Ingest(id, content, rank, doc, r))
    {
      if id in rows {
        return;
      }
      var same := set c | c in rows && rows[c].content == Some(content);
      if same != {} {
        var c :| c in same;
        assert Taken(old(State()), content, id);
        rows := rows[id := ExactRow(rows, c, rank)];
        assert State() == Inserted(old(State()), id, ExactRow(old(rows), c, rank));
        return;
      }
      assert !Taken(old(State()), content, id) by {
        assert forall c :: c in rows && rows[c].content == Some(content) ==> c in same;
      }
      rows := rows[id := NewRow(doc.format, Some(content), rank)];
      assert State() == Inserted(old(State()), id, NewRow(doc.format, Some(content), rank));
      ClassifyAndIndex(id, doc, r);
    }

    /** The two halves of a reprocess that nothing interrupts. */
    method ReprocessArtifact(id: Id, content: Id, tokens: Tokens, r: Reading)
      modifies this
      ensures exists u :: Next(old(State()), u, Check(id))
                          && if Passes(old(rows), id) then Next(u, State(), Commit(id, content, tokens, r))
                             else State() == u
    {
      var goes := CheckRow(id);
      ghost var u := State();
      assert Next(old(State()), u, Check(id));
      if goes {
        CommitReprocess(id, content, tokens, r);
      }
    }

    method CheckRow(id: Id) returns (goes: bool)
      modifies this
      ensures goes == Passes(old(rows), id) && Next(old(State()), State(), Check(id))
      ensures rows == old(rows) && (goes ==> id in checked)
    {
      goes := id in rows && !(IsDuplicate(rows[id].state) && rows[id].canonical.Some?);
      if goes {
        checked := checked + multiset{id};
      }
    }

    method CommitReprocess(id: Id, content: Id, tokens: Tokens, r: Reading)
      requires id in checked && id in rows
      modifies this
      ensures Next(old(State()), State(), Commit(id, content, tokens, r))
    {
      checked := checked - multiset{id};
      assert State() == Resumed(old(State()), id);
      if exists c :: c in rows && c != id && rows[c].content == Some(content) {
        return;
      }
      rows := rows[id := rows[id].(content := Some(content))];
      assert State() == Reread(Resumed(old(State()), id), id, content);
      ClassifyAndIndex(id, Document(rows[id].format, tokens), r);
    }

    /** Classifies a stored archive, records the verdict and rewrites its bands. */
    method ClassifyAndIndex(id: Id, doc: Document, r: Reading)
      requires id in rows
      modifies this
      ensures exists v :: IsVerdict(old(State()), id, doc, r, v)
                          && State() == WithVerdict(old(State()), id, doc, r.digests, v)
    {
      ghost var before := State();
      var v := Classify(Store(rows, buckets, multiset{}, map[]), id, doc, r);
      assert Candidates(Store(rows, buckets, multiset{}, map[]), id, doc.tokens, r.digests) ==
             Candidates(before, id, doc.tokens, r.digests);
      assert IsVerdict(before, id, doc, r, v);
      rows := rows[id := rows[id].(state := v.state, canonical := v.canonical, fingerprint := Some(PrintOf(doc)))];
      buckets := set b | b in buckets && b.archive != id;
      if !IsDuplicate(v.state) {
        buckets := buckets + BucketsOf(id, doc.tokens, r.digests);
      }
      indexed := indexed[id := doc.tokens];
      assert State() == WithVerdict(before, id, doc, r.digests, v);
    }
  }

  // ------------------------------------------------------------------- invariants

  /** Following canonical pointers from `id` reaches a non-duplicate in at most `n` hops. */
  ghost predicate Resolves(rows: map<Id, Row>, n: nat, id: Id)
    decreases n
  {
    && id in rows
    && (IsDuplicate(rows[id].state) ==>
          n > 0 && rows[id].canonical.Some? && Resolves(rows, n - 1, rows[id].canonical.value))
  }

  ghost predicate Grounded(rows: map<Id, Row>, id: Id) {
    exists n :: Resolves(rows, n, id)
  }

  /** Band rows exist only for archives that are not duplicates. */
  ghost predicate OnlyOriginalsIndexed(s: Store) {
    forall b :: b in s.buckets ==> b.archive in s.rows && !IsDuplicate(s.rows[b.archive].state)
  }

  /** Every classified original is found under all bands of its text. */
  ghost predicate OriginalsIndexed(s: Store, digests: Digests) {
    forall id :: id in s.indexed && id in s.rows && !IsDuplicate(s.rows[id].state) ==>
      BucketsOf(id, s.indexed[id], digests) <= s.buckets
  }

  ghost predicate Inv(s: Store) {
    && OnlyOriginalsIndexed(s)
    && (forall id :: id in s.rows ==> Grounded(s.rows, id))
  }

  /** A duplicate verdict points at another archive that is not a duplicate. */
  lemma VerdictPointsAtOriginal(s: Store, id: Id, doc: Document, r: Reading, v: Verdict)
    requires OnlyOriginalsIndexed(s) && IsVerdict(s, id, doc, r, v)
    ensures IsDuplicate(v.state) ==>
              v.canonical.Some? && v.canonical.value != id && v.canonical.value in s.rows
              && !IsDuplicate(s.rows[v.canonical.value].state)
  {
    if Matched(s.rows, id, PrintOf(doc)) {
      assert SameFingerprint(s.rows, id, PrintOf(doc), v.canonical.value);
    } else {
      VerdictIsAboutCandidate(s, id, doc, r, v);
      CandidatesAreOriginals(s, id, doc.tokens, r.digests);
    }
  }

  lemma VerdictIsAboutCandidate(s: Store, id: Id, doc: Document, r: Reading, v: Verdict)
    requires IsVerdict(s, id, doc, r, v) && !Matched(s.rows, id, PrintOf(doc))
    ensures v.canonical.Some? ==> v.canonical.value in Candidates(s, id, doc.tokens, r.digests)
    ensures v.state != Unique ==> v.canonical.Some?
  {
    var cs: seq<Scored>, best :| ScoresCandidates(cs, Candidates(s, id, doc.tokens, r.digests), doc, r)
                    && IsBest(cs, best) && v == Decide(best, AnyOverlap(cs));
    BestIsListed(cs, best, Candidates(s, id, doc.tokens, r.digests));
  }

  lemma CandidatesAreOriginals(s: Store, id: Id, tokens: Tokens, digests: Digests)
    requires OnlyOriginalsIndexed(s)
    ensures forall c :: c in Candidates(s, id, tokens, digests) ==>
              c in s.rows && c != id && !IsDuplicate(s.rows[c].state)
  {
  }

  lemma BestIsListed(cs: seq<Scored>, best: Option<Scored>, ids: set<Id>)
    requires ListsOnce(cs, ids) && IsBest(cs, best)
    ensures best.Some? ==> best.value.id in ids
  {
    if best.Some? {
      var k :| 0 <= k < |cs| && cs[k] == best.value;
    }
  }

  /** Pointing `id` at an original, or making it one, leaves every chain grounded. */
  lemma {:induction false} RetargetKeepsGrounded(rows: map<Id, Row>, after: map<Id, Row>, id: Id, n: nat, x: Id)
    requires Resolves(rows, n, x)
    requires forall y :: y in rows && y != id ==>
               y in after && after[y].state == rows[y].state && after[y].canonical == rows[y].canonical
    requires id in after
    requires IsDuplicate(after[id].state) ==>
               after[id].canonical.Some? && after[id].canonical.value != id && after[id].canonical.value in after
               && !IsDuplicate(after[after[id].canonical.value].state)
    ensures Resolves(after, n + 1, x)
    decreases n
  {
    if x == id {
      if IsDuplicate(after[id].state) {
        assert Resolves(after, n, after[id].canonical.value);
      }
    } else if IsDuplicate(rows[x].state) {
      RetargetKeepsGrounded(rows, after, id, n - 1, rows[x].canonical.value);
    }
  }

  lemma RetargetAll(rows: map<Id, Row>, after: map<Id, Row>, id: Id)
    requires forall x :: x in rows ==> Grounded(rows, x)
    requires after.Keys == rows.Keys && id in rows
    requires forall y :: y in rows && y != id ==>
             after[y].state == rows[y].state && after[y].canonical == rows[y].canonical
    requires IsDuplicate(after[id].state) ==>
               after[id].canonical.Some? && after[id].canonical.value != id && after[id].canonical.value in after
               && !IsDuplicate(after[after[id].canonical.value].state)
    ensures forall x :: x in after ==> Grounded(after, x)
  {
    forall x | x in after
      ensures Grounded(after, x)
    {
      var n :| Resolves(rows, n, x);
      RetargetKeepsGrounded(rows, after, id, n, x);
    }
  }

  lemma {:induction false} AddedRowKeeps(rows: map<Id, Row>, after: map<Id, Row>, n: nat, x: Id)
    requires Resolves(rows, n, x) && forall y :: y in rows ==> y in after && after[y] == rows[y]
    ensures Resolves(after, n, x)
    decreases n
  {
    if IsDuplicate(rows[x].state) {
      AddedRowKeeps(rows, after, n - 1, rows[x].canonical.value);
    }
  }

  /** Inserting a new row, an original or a pointer to an existing row. */
  lemma InsertKeepsInv(s: Store, id: Id, row: Row)
    requires Inv(s) && id !in s.rows
    requires IsDuplicate(row.state) ==> row.canonical.Some? && row.canonical.value in s.rows
    ensures Inv(Inserted(s, id, row))
  {
    var after := s.rows[id := row];
    forall x | x in after
      ensures Grounded(after, x)
    {
      if x in s.rows {
        var n :| Resolves(s.rows, n, x);
        AddedRowKeeps(s.rows, after, n, x);
      } else if IsDuplicate(row.state) {
        assert Grounded(s.rows, row.canonical.value);
        var n: nat :| Resolves(s.rows, n, row.canonical.value);
        AddedRowKeeps(s.rows, after, n, row.canonical.value);
        assert Resolves(after, n + 1, x);
      } else {
        assert Resolves(after, 0, x);
      }
    }
  }

  lemma RereadKeepsInv(s: Store, id: Id, content: Id)
    requires Inv(s) && id in s.rows
    ensures Inv(Reread(s, id, content))
  {
    var after := Reread(s, id, content).rows;
    forall x | x in after
      ensures Grounded(after, x)
    {
      var n :| Resolves(s.rows, n, x);
      SameShapeResolves(s.rows, after, n, x);
    }
  }

  lemma {:induction false} SameShapeResolves(rows: map<Id, Row>, after: map<Id, Row>, n: nat, x: Id)
    requires Resolves(rows, n, x)
    requires forall y :: y in rows ==>
             y in after && after[y].state == rows[y].state && after[y].canonical == rows[y].canonical
    ensures Resolves(after, n, x)
    decreases n
  {
    if IsDuplicate(rows[x].state) {
      SameShapeResolves(rows, after, n - 1, rows[x].canonical.value);
    }
  }

  lemma VerdictKeepsInv(s: Store, id: Id, doc: Document, r: Reading, v: Verdict)
    requires Inv(s) && id in s.rows && IsVerdict(s, id, doc, r, v)
    ensures Inv(WithVerdict(s, id, doc, r.digests, v))
  {
    VerdictPointsAtOriginal(s, id, doc, r, v);
    VerdictIndexesOriginals(s, id, doc, r.digests, v);
    var rows := WithVerdict(s, id, doc, r.digests, v).rows;
    assert rows.Keys == s.rows.Keys;
    RetargetAll(s.rows, rows, id);
  }

  lemma VerdictIndexesOriginals(s: Store, id: Id, doc: Document, digests: Digests, v: Verdict)
    requires OnlyOriginalsIndexed(s) && id in s.rows
    ensures OnlyOriginalsIndexed(WithVerdict(s, id, doc, digests, v))
  {
    BucketsNameTheirArchive(id, doc.tokens, digests);
  }

  /** Every step keeps the chains grounded, late halves included. */
  lemma StepKeepsInv(s: Store, t: Store, e: Event)
    requires Inv(s) && Next(s, t, e)
    ensures Inv(t)
  {
    match e
    case Ingest(id, content, rank, doc, r) =>
      if id !in s.rows {
        if Taken(s, content, id) {
          var c :| c in s.rows && s.rows[c].content == Some(content) && t == Inserted(s, id, ExactRow(s.rows, c, rank));
          InsertKeepsInv(s, id, ExactRow(s.rows, c, rank));
        } else {
          var u := Inserted(s, id, NewRow(doc.format, Some(content), rank));
          InsertKeepsInv(s, id, NewRow(doc.format, Some(content), rank));
          var v :| IsVerdict(u, id, doc, r, v) && t == WithVerdict(u, id, doc, r.digests, v);
          VerdictKeepsInv(u, id, doc, r, v);
        }
      }
    case LateExact(id, canonical, rank) =>
      if id !in s.rows && canonical in s.rows {
        InsertKeepsInv(s, id, ExactRow(s.rows, canonical, rank));
      }
    case Check(id) =>
    case Commit(id, content, tokens, r) =>
      if !Taken(s, content, id) {
        ReprocessKeepsInv(Resumed(s, id), t, id, content, Document(s.rows[id].format, tokens), r);
      }
    case Migrate(id, format, known, rank) =>
      if t != s {
        InsertKeepsInv(s, id, NewRow(format, known, rank));
      }
  }

  lemma ReprocessKeepsInv(s: Store, t: Store, id: Id, content: Id, doc: Document, r: Reading)
    requires Inv(s) && id in s.rows
    requires exists v :: IsVerdict(Reread(s, id, content), id, doc, r, v)
                         && t == WithVerdict(Reread(s, id, content), id, doc, r.digests, v)
    ensures Inv(t)
  {
    var u := Reread(s, id, content);
    var v :| IsVerdict(u, id, doc, r, v) && t == WithVerdict(u, id, doc, r.digests, v);
    RereadKeepsInv(s, id, content);
    VerdictKeepsInv(u, id, doc, r, v);
  }

  // ------------------------------------------------------------------------- runs

  ghost predicate IsRun(stores: seq<Store>, events: seq<Event>) {
    |stores| == |events| + 1 && forall i :: 0 <= i < |events| ==> Next(stores[i], stores[i + 1], events[i])
  }

  /** Over every run from an empty archive, following canonical pointers ends at an
      archive that is not a duplicate. */
  lemma {:induction false} PointersAlwaysGrounded(stores: seq<Store>, events: seq<Event>, k: nat)
    requires IsRun(stores, events) && stores[0] == EMPTY && k < |stores|
    ensures Inv(stores[k])
  {
    if k > 0 {
      PointersAlwaysGrounded(stores, events, k - 1);
      StepKeepsInv(stores[k - 1], stores[k], events[k - 1]);
    }
  }

  /** In particular no chain of duplicates comes back to where it started. */
  ghost predicate DuplicateCycle(rows: map<Id, Row>, p: seq<Id>) {
    && |p| >= 2 && p[0] == p[|p| - 1]
    && forall i :: 0 <= i < |p| - 1 ==> DuplicateRow(rows, p[i]) && rows[p[i]].canonical == Some(p[i + 1])
  }

  lemma {:induction false} CyclesAreNotGrounded(rows: map<Id, Row>, p: seq<Id>, n: nat, i: nat)
    requires DuplicateCycle(rows, p) && i < |p| - 1
    ensures !Resolves(rows, n, p[i])
    decreases n
  {
    if n > 0 {
      CyclesAreNotGrounded(rows, p, n - 1, if i + 1 < |p| - 1 then i + 1 else 0);
    }
  }

  lemma NoDuplicateCycle(stores: seq<Store>, events: seq<Event>, k: nat, p: seq<Id>)
    requires IsRun(stores, events) && stores[0] == EMPTY && k < |stores|
    ensures !DuplicateCycle(stores[k].rows, p)
  {
    PointersAlwaysGrounded(stores, events, k);
    if DuplicateCycle(stores[k].rows, p) {
      assert Grounded(stores[k].rows, p[0]);
      var n :| Resolves(stores[k].rows, n, p[0]);
      CyclesAreNotGrounded(stores[k].rows, p, n, 0);
    }
  }

  // ------------------------------------------------------------ are duplicates permanent?

  ghost predicate SameDuplicate(s: Store, t: Store, id: Id) {
    && DuplicateRow(s.rows, id) && DuplicateRow(t.rows, id)
    && t.rows[id].state == s.rows[id].state && t.rows[id].canonical == s.rows[id].canonical
  }

  /** Every step but a commit on that very archive keeps a duplicate's state and pointer,
      and lets no further reprocess of it past the check. */
  lemma StepKeepsDuplicate(s: Store, t: Store, e: Event, id: Id)
    requires Inv(s) && Next(s, t, e) && DuplicateRow(s.rows, id)
    requires !(e.Commit? && e.id == id)
    ensures SameDuplicate(s, t, id) && t.checked[id] == s.checked[id]
  {
    assert Grounded(s.rows, id);
    var n :| Resolves(s.rows, n, id);
  }

  lemma SameDuplicateChain(s: Store, t: Store, u: Store, id: Id)
    requires SameDuplicate(s, t, id) && SameDuplicate(t, u, id)
    ensures SameDuplicate(s, u, id)
  {
  }

  /** As long as no commit falls on it, a duplicate stays what it is. */
  lemma {:induction false} DuplicatesArePermanent(stores: seq<Store>, events: seq<Event>, id: Id, j: nat)
    requires IsRun(stores, events) && Inv(stores[0]) && DuplicateRow(stores[0].rows, id) && j < |stores|
    requires forall k :: 0 <= k < j ==> !(events[k].Commit? && events[k].id == id)
    ensures Inv(stores[j]) && SameDuplicate(stores[0], stores[j], id) && stores[j].checked[id] == stores[0].checked[id]
  {
    if j > 0 {
      DuplicatesArePermanent(stores, events, id, j - 1);
      StaysOneMoreStep(stores[0], stores[j - 1], stores[j], events[j - 1], id);
    }
  }

  lemma StaysOneMoreStep(s: Store, t: Store, u: Store, e: Event, id: Id)
    requires Inv(t) && SameDuplicate(s, t, id) && Next(t, u, e) && !(e.Commit? && e.id == id)
    ensures Inv(u) && SameDuplicate(s, u, id) && u.checked[id] == t.checked[id]
  {
    StepKeepsInv(t, u, e);
    StepKeepsDuplicate(t, u, e, id);
    SameDuplicateChain(s, t, u, id);
  }

  lemma NoCommitUnchecked(s: Store, t: Store, e: Event, id: Id)
    requires Next(s, t, e) && s.checked[id] == 0
    ensures !(e.Commit? && e.id == id)
  {
  }

  /** When no reprocess that passed the check is still under way, no commit can fall on it. */
  lemma {:induction false} UncheckedIsPermanent(stores: seq<Store>, events: seq<Event>, id: Id, j: nat)
    requires IsRun(stores, events) && Inv(stores[0]) && DuplicateRow(stores[0].rows, id) && j < |stores|
    requires stores[0].checked[id] == 0
    ensures SameDuplicate(stores[0], stores[j], id)
    ensures forall k :: 0 <= k < j ==> !(events[k].Commit? && events[k].id == id)
  {
    if j > 0 {
      UncheckedIsPermanent(stores, events, id, j - 1);
      DuplicatesArePermanent(stores, events, id, j - 1);
      NoCommitUnchecked(stores[j - 1], stores[j], events[j - 1], id);
      DuplicatesArePermanent(stores, events, id, j);
    }
  }

  /** A text longer than all of a set. */
  lemma {:induction false} FreshId(used: set<Id>) returns (id: Id)
    ensures forall u :: u in used ==> |u.text| < |id.text|
    decreases |used|
  {
    if used == {} {
      id := Id("");
    } else {
      var u :| u in used;
      var rest := FreshId(used - {u});
      id := Id(u.text + rest.text + "x");
    }
  }

  // What a commit can do. A file that holds a single new word is like no other text.

  /** An archive whose fingerprint no original carries and whose text is like none of the
      candidates' becomes, or becomes again, an original. */
  lemma UnlikeAllIsUnique(s: Store, id: Id, doc: Document, r: Reading)
    requires !Matched(s.rows, id, PrintOf(doc))
    requires forall c :: c in Candidates(s, id, doc.tokens, r.digests) ==> Unlike(doc.tokens, TextOf(r, c))
    ensures IsVerdict(s, id, doc, r, Verdict(Unique, None))
  {
    var ids := Candidates(s, id, doc.tokens, r.digests);
    var cs := ZeroScores(ids, doc, r);
    assert IsBest(cs, None) && Decide(None, AnyOverlap(cs)) == Verdict(Unique, None);
  }

  lemma CandidatesAreOthers(s: Store, id: Id, tokens: Tokens, digests: Digests)
    ensures forall c :: c in Candidates(s, id, tokens, digests) ==> c in s.rows && c != id
  {
  }

  lemma {:induction false} ZeroScores(ids: set<Id>, doc: Document, r: Reading) returns (cs: seq<Scored>)
    requires forall c :: c in ids ==> Unlike(doc.tokens, TextOf(r, c))
    ensures ScoresCandidates(cs, ids, doc, r) && AllZero(cs)
    decreases |ids|
  {
    if ids == {} {
      cs := [];
      NothingScored(doc, r);
    } else {
      var id :| id in ids;
      var others := ids - {id};
      var rest := ZeroScores(others, doc, r);
      cs := AddZero(rest, others, id, doc, r);
      assert others + {id} == ids;
    }
  }

  lemma AddZero(cs: seq<Scored>, ids: set<Id>, id: Id, doc: Document, r: Reading) returns (more: seq<Scored>)
    requires ScoresCandidates(cs, ids, doc, r) && AllZero(cs) && id !in ids && Unlike(doc.tokens, TextOf(r, id))
    ensures ScoresCandidates(more, ids + {id}, doc, r) && AllZero(more)
  {
    var c := ZeroScore(id, doc, r);
    AddScore(cs, ids, doc, r, c);
    AllZeroGrows(cs, c);
    more := cs + [c];
  }

  ghost predicate AllZero(cs: seq<Scored>) {
    forall i :: 0 <= i < |cs| ==> Score(cs[i]) == 0.0
  }

  lemma AllZeroGrows(cs: seq<Scored>, c: Scored)
    requires AllZero(cs) && Score(c) == 0.0
    ensures AllZero(cs + [c])
  {
  }

  lemma ZeroScore(id: Id, doc: Document, r: Reading) returns (c: Scored)
    requires Unlike(doc.tokens, TextOf(r, id))
    ensures c.id == id && IsScored(doc, r, c) && Score(c) == 0.0
  {
    c := Scored(id, 0.0, 0.0, false);
  }

  predicate Unread(word: string, r: Reading) {
    forall c :: c in r.texts ==> word !in r.texts[c]
  }

  lemma NewWordIsUnique(s: Store, id: Id, format: Format, word: string, r: Reading)
    requires Unread(word, r) && !Matched(s.rows, id, IdentityFingerprint(format, [word]))
    ensures IsVerdict(s, id, Document(format, [word]), r, Verdict(Unique, None))
  {
    forall c | c in Candidates(s, id, [word], r.digests)
      ensures Unlike([word], TextOf(r, c))
    {
      NewWordIsUnlike(word, TextOf(r, c));
    }
    UnlikeAllIsUnique(s, id, Document(format, [word]), r);
  }

  lemma {:induction false} OldestOf(rows: map<Id, Row>, ids: set<Id>) returns (c: Id)
    requires ids != {} && ids <= rows.Keys
    ensures c in ids && forall d :: d in ids ==> rows[c].rank <= rows[d].rank
    decreases |ids|
  {
    c :| c in ids;
    if ids != {c} {
      var d := OldestOf(rows, ids - {c});
      if rows[d].rank < rows[c].rank {
        c := d;
      }
    }
  }

  lemma MatchIsDuplicate(s: Store, id: Id, doc: Document, r: Reading) returns (c: Id)
    requires Matched(s.rows, id, PrintOf(doc))
    ensures SameFingerprint(s.rows, id, PrintOf(doc), c)
            && IsVerdict(s, id, doc, r, Verdict(CanonicalDuplicate, Some(c)))
  {
    var matches := set d | d in s.rows && SameFingerprint(s.rows, id, PrintOf(doc), d);
    var d :| SameFingerprint(s.rows, id, PrintOf(doc), d);
    assert d in matches;
    c := OldestOf(s.rows, matches);
    assert IsOldestMatch(s.rows, id, PrintOf(doc), c) by {
      assert forall d :: SameFingerprint(s.rows, id, PrintOf(doc), d) ==> d in matches;
    }
  }

  function Judged(row: Row, v: Verdict, fingerprint: Fingerprint, content: Id): Row {
    row.(state := v.state, canonical := v.canonical, fingerprint := Some(fingerprint), content := Some(content))
  }

  lemma RejudgedRow(s: Store, id: Id, content: Id, doc: Document, digests: Digests, v: Verdict)
    requires id in s.rows
    ensures var t := WithVerdict(Reread(Resumed(s, id), id, content), id, doc, digests, v);
            t.checked == s.checked - multiset{id}
            && t.rows == s.rows[id := Judged(s.rows[id], v, PrintOf(doc), content)]
  {
  }

  /** A commit that classifies as `v`. */
  lemma CommitsAs(s: Store, id: Id, content: Id, tokens: Tokens, r: Reading, v: Verdict) returns (t: Store)
    requires id in s.checked && id in s.rows && !Taken(s, content, id)
    requires IsVerdict(Reread(Resumed(s, id), id, content), id, Document(s.rows[id].format, tokens), r, v)
    ensures IsRun([s, t], [Commit(id, content, tokens, r)]) && t.checked == s.checked - multiset{id}
    ensures t.rows == s.rows[id := Judged(s.rows[id], v, IdentityFingerprint(s.rows[id].format, tokens), content)]
  {
    var doc := Document(s.rows[id].format, tokens);
    t := WithVerdict(Reread(Resumed(s, id), id, content), id, doc, r.digests, v);
    RunOfOne(s, t, Commit(id, content, tokens, r));
    RejudgedRow(s, id, content, doc, r.digests, v);
  }

  lemma MatchesAreOthers(rows: map<Id, Row>, after: map<Id, Row>, id: Id, fingerprint: Fingerprint)
    requires forall c :: c != id ==> (c in rows <==> c in after) && (c in rows ==> rows[c] == after[c])
    ensures forall c :: SameFingerprint(rows, id, fingerprint, c) <==> SameFingerprint(after, id, fingerprint, c)
    ensures Matched(rows, id, fingerprint) <==> Matched(after, id, fingerprint)
  {
    forall c
      ensures SameFingerprint(rows, id, fingerprint, c) <==> SameFingerprint(after, id, fingerprint, c)
    {
    }
  }

  /** A commit of one new word, which makes an original unless the fingerprint is known. */
  lemma CommitWord(s: Store, id: Id, content: Id, word: string, r: Reading) returns (t: Store)
    requires id in s.checked && id in s.rows && !Taken(s, content, id) && Unread(word, r)
    ensures IsRun([s, t], [Commit(id, content, [word], r)]) && id in t.rows
    ensures var mark := IdentityFingerprint(s.rows[id].format, [word]);
            if Matched(s.rows, id, mark)
            then t.rows[id].canonical.Some? && SameFingerprint(s.rows, id, mark, t.rows[id].canonical.value)
            else t.rows[id].state == Unique
  {
    var u, doc := Reread(Resumed(s, id), id, content), Document(s.rows[id].format, [word]);
    MatchesAreOthers(s.rows, u.rows, id, PrintOf(doc));
    if Matched(s.rows, id, PrintOf(doc)) {
      var c := MatchIsDuplicate(u, id, doc, r);
      t := CommitsAs(s, id, content, [word], r, Verdict(CanonicalDuplicate, Some(c)));
    } else {
      NewWordIsUnique(u, id, doc.format, word, r);
      t := CommitsAs(s, id, content, [word], r, Verdict(Unique, None));
    }
  }

  lemma FreshContent(s: Store, id: Id) returns (content: Id)
    ensures !Taken(s, content, id)
  {
    var contents := set c | c in s.rows && s.rows[c].content.Some? :: s.rows[c].content.value;
    content := FreshId(contents);
    forall c | c in s.rows
      ensures s.rows[c].content != Some(content)
    {
      assert s.rows[c].content.Some? ==> s.rows[c].content.value in contents;
    }
  }

  /** While a reprocess of a duplicate is under way, its commit can turn the duplicate back
      into an original, whatever the other files hold: it is enough that its own file now
      holds a word that is in none of them, and whose covered part no original has. */
  lemma CommitCanRevive(s: Store, id: Id, word: string, r: Reading) returns (t: Store, content: Id)
    requires DuplicateRow(s.rows, id) && id in s.checked && Unread(word, r)
    requires !Matched(s.rows, id, IdentityFingerprint(s.rows[id].format, [word]))
    ensures IsRun([s, t], [Commit(id, content, [word], r)]) && id in t.rows && t.rows[id].state == Unique
  {
    content := FreshContent(s, id);
    t := CommitWord(s, id, content, word, r);
  }

  function Repeated(letter: char, n: nat): (word: string)
    ensures |word| == n && forall i :: 0 <= i < n ==> word[i] == letter
  {
    seq(n, _ => letter)
  }

  lemma {:induction false} LongerThanWords(text: Tokens) returns (n: nat)
    ensures n > 0 && forall word :: word in text ==> |word| < n
  {
    if text == [] {
      n := 1;
    } else {
      var m := LongerThanWords(text[1..]);
      n := m + |text[0]| + 1;
      assert text == [text[0]] + text[1..];
    }
  }

  lemma {:induction false} LongerThanAll(texts: map<Id, Tokens>) returns (n: nat)
    ensures n > 0 && forall c, word :: c in texts && word in texts[c] ==> |word| < n
    decreases |texts|
  {
    if texts == map[] {
      n := 1;
    } else {
      var c :| c in texts;
      assert |texts - {c}| < |texts|;
      var m := LongerThanAll(texts - {c});
      var k := LongerThanWords(texts[c]);
      n := m + k;
      forall d, word | d in texts && word in texts[d]
        ensures |word| < n
      {
        if d != c {
          assert d in texts - {c} && (texts - {c})[d] == texts[d];
        }
      }
    }
  }

  /** It can change the duplicate even if every covered part is taken, whatever the other
      files hold: of two new words that begin differently, one at least makes an original or
      points elsewhere. */
  lemma CommitCanChange(s: Store, id: Id, r: Reading) returns (t: Store, e: Event)
    requires DuplicateRow(s.rows, id) && id in s.checked
    ensures IsRun([s, t], [e]) && !SameDuplicate(s, t, id) && e.Commit? && e.reading == r
  {
    var content := FreshContent(s, id);
    var n := LongerThanAll(r.texts);
    var a, b := Repeated('a', n), Repeated('b', n);
    FirstLetterShows(s.rows[id].format, [a], [b]);
    e := Commit(id, content, [a], r);
    t := CommitWord(s, id, content, a, r);
    if SameDuplicate(s, t, id) {
      e := Commit(id, content, [b], r);
      t := CommitWord(s, id, content, b, r);
    }
  }

  /** Nothing that can follow changes the duplicate. */
  ghost predicate PermanentFrom(s: Store, id: Id) {
    forall stores, events :: IsRun(stores, events) && stores[0] == s ==> SameDuplicate(s, stores[|stores| - 1], id)
  }

  /** A duplicate is permanent if and only if no reprocess of it that passed the check,
      which was before it became one, is still under way. */
  lemma DuplicateIsPermanentExactlyWhen(s: Store, id: Id)
    requires Inv(s) && DuplicateRow(s.rows, id)
    ensures PermanentFrom(s, id) <==> s.checked[id] == 0
  {
    if s.checked[id] == 0 {
      forall stores, events | IsRun(stores, events) && stores[0] == s
        ensures SameDuplicate(s, stores[|stores| - 1], id)
      {
        UncheckedIsPermanent(stores, events, id, |stores| - 1);
      }
    } else {
      var t, e := CommitCanChange(s, id, Reading(map[], map[]));
      OneRunRefutes([s, t], [e], id);
    }
  }

  lemma RunOfOne(s: Store, t: Store, e: Event)
    requires Next(s, t, e)
    ensures IsRun([s, t], [e])
  {
  }

  lemma OneRunRefutes(stores: seq<Store>, events: seq<Event>, id: Id)
    requires IsRun(stores, events) && !SameDuplicate(stores[0], stores[|stores| - 1], id)
    ensures !PermanentFrom(stores[0], id)
  {
  }

  lemma RunOfTwo(s: Store, t: Store, u: Store, e: Event, f: Event)
    requires IsRun([s, t], [e]) && IsRun([t, u], [f])
    ensures IsRun([s, t, u], [e, f])
  {
    RunsJoin([s, t], [e], [t, u], [f]);
    assert [s, t] + [t, u][1..] == [s, t, u] && [e] + [f] == [e, f];
  }

  lemma RunOfThree(s: Store, t: Store, u: Store, v: Store, e: Event, f: Event, g: Event)
    requires IsRun([s, t], [e]) && IsRun([t, u], [f]) && IsRun([u, v], [g])
    ensures IsRun([s, t, u, v], [e, f, g])
  {
    RunOfTwo(s, t, u, e, f);
    RunsJoin([s, t, u], [e, f], [u, v], [g]);
    assert [s, t, u] + [u, v][1..] == [s, t, u, v] && [e, f] + [g] == [e, f, g];
  }

  lemma {:induction false} RunsJoin(stores: seq<Store>, events: seq<Event>, more: seq<Store>, later: seq<Event>)
    requires IsRun(stores, events) && IsRun(more, later) && stores[|stores| - 1] == more[0]
    ensures IsRun(stores + more[1..], events + later)
  {
    var all, both := stores + more[1..], events + later;
    forall i | 0 <= i < |both|
      ensures Next(all[i], all[i + 1], both[i])
    {
      if i < |events| {
        assert Next(stores[i], stores[i + 1], events[i]);
      } else {
        assert Next(more[i - |events|], more[i - |events| + 1], later[i - |events|]);
      }
    }
  }

  // A run that revives one, over two files of a single word each.

  lemma VerdictRow(s: Store, id: Id, row: Row, doc: Document, digests: Digests, v: Verdict)
    requires row.content.Some?
    ensures var t := WithVerdict(Inserted(s, id, row), id, doc, digests, v);
            t.checked == s.checked && t.rows == s.rows[id := Judged(row, v, PrintOf(doc), row.content.value)]
  {
  }

  /** An ingest that classifies as `v`. */
  lemma IngestsAs(s: Store, id: Id, content: Id, rank: int, doc: Document, r: Reading, v: Verdict) returns (t: Store)
    requires id !in s.rows && !Taken(s, content, id)
    requires IsVerdict(Inserted(s, id, NewRow(doc.format, Some(content), rank)), id, doc, r, v)
    ensures IsRun([s, t], [Ingest(id, content, rank, doc, r)]) && t.checked == s.checked
    ensures t == WithVerdict(Inserted(s, id, NewRow(doc.format, Some(content), rank)), id, doc, r.digests, v)
    ensures t.rows == s.rows[id := Judged(NewRow(doc.format, Some(content), rank), v, PrintOf(doc), content)]
  {
    t := WithVerdict(Inserted(s, id, NewRow(doc.format, Some(content), rank)), id, doc, r.digests, v);
    RunOfOne(s, t, Ingest(id, content, rank, doc, r));
    VerdictRow(s, id, NewRow(doc.format, Some(content), rank), doc, r.digests, v);
  }

  /** Two archives `a` and `b` of one format, and the contents their files have in turn: `x`
      holds `first`, `y` holds `second`, and `z` holds `first` again in other bytes. */
  datatype Scene = Scene(a: Id, b: Id, x: Id, y: Id, z: Id, format: Format, first: string, second: string,
                         digests: Digests)
  {
    ghost predicate Valid() {
      && a != b && x != y && x != z && y != z && Print(first) != Print(second)
    }

    function Print(word: string): Fingerprint {
      IdentityFingerprint(format, [word])
    }

    /** The row of an original that holds `word`. */
    function Original(word: string, content: Id, rank: int): Row {
      Row(format, Unique, None, Some(Print(word)), Some(content), rank)
    }

    function First(): map<Id, Row> {
      map[a := Original(first, x, 0)]
    }

    function Apart(): map<Id, Row> {
      First()[b := Original(second, y, 1)]
    }

    function Duplicated(): map<Id, Row> {
      First()[b := Row(format, CanonicalDuplicate, Some(a), Some(Print(first)), Some(z), 1)]
    }

    /** The files as they can be read beside `b`. */
    function Beside(): Reading {
      Reading(map[a := [first]], digests)
    }

    function IngestFirst(): Event {
      Ingest(a, x, 0, Document(format, [first]), Reading(map[], digests))
    }

    function IngestSecond(): Event {
      Ingest(b, y, 1, Document(format, [second]), Beside())
    }

    function CommitRewritten(): Event {
      Commit(b, z, [first], Beside())
    }

    function CommitRestored(): Event {
      Commit(b, y, [second], Beside())
    }

    function Before(): seq<Event> {
      [IngestFirst(), IngestSecond(), Check(b)]
    }

    function After(): seq<Event> {
      [Check(b), CommitRewritten(), CommitRestored()]
    }
  }

  lemma IngestsOfRun(k: Scene) returns (s: Store, t: Store)
    requires k.Valid()
    ensures IsRun([EMPTY, s], [k.IngestFirst()]) && s.rows == k.First()
    ensures IsRun([s, t], [k.IngestSecond()]) && t.rows == k.Apart() && t.checked == multiset{}
  {
    var none := Reading(map[], k.digests);
    NewWordIsUnique(Inserted(EMPTY, k.a, NewRow(k.format, Some(k.x), 0)), k.a, k.format, k.first, none);
    s := IngestsAs(EMPTY, k.a, k.x, 0, Document(k.format, [k.first]), none, Verdict(Unique, None));
    NewWordIsUnique(Inserted(s, k.b, NewRow(k.format, Some(k.y), 1)), k.b, k.format, k.second, k.Beside());
    t := IngestsAs(s, k.b, k.y, 1, Document(k.format, [k.second]), k.Beside(), Verdict(Unique, None));
  }

  lemma SceneDuplicated(k: Scene)
    requires k.Valid()
    ensures k.Duplicated() == k.Apart()[k.b := Judged(k.Apart()[k.b], Verdict(CanonicalDuplicate, Some(k.a)),
                                                      k.Print(k.first), k.z)]
  {
  }

  lemma FirstCommitOfRun(k: Scene, s: Store) returns (t: Store)
    requires k.Valid() && s.rows == k.Apart() && s.checked == multiset{k.b, k.b}
    ensures IsRun([s, t], [k.CommitRewritten()]) && t.rows == k.Duplicated() && t.checked == multiset{k.b}
  {
    var u, doc := Reread(Resumed(s, k.b), k.b, k.z), Document(k.format, [k.first]);
    assert SameFingerprint(u.rows, k.b, PrintOf(doc), k.a);
    var c := MatchIsDuplicate(u, k.b, doc, k.Beside());
    assert c == k.a;
    assert !Taken(s, k.z, k.b);
    t := CommitsAs(s, k.b, k.z, [k.first], k.Beside(), Verdict(CanonicalDuplicate, Some(k.a)));
    SceneDuplicated(k);
    assert multiset{k.b, k.b} - multiset{k.b} == multiset{k.b};
  }

  lemma SceneRestored(k: Scene)
    requires k.Valid()
    ensures k.Apart() == k.Duplicated()[k.b := Judged(k.Duplicated()[k.b], Verdict(Unique, None),
                                                      k.Print(k.second), k.y)]
  {
  }

  lemma SecondCommitOfRun(k: Scene, s: Store) returns (t: Store)
    requires k.Valid() && s.rows == k.Duplicated() && k.b in s.checked
    ensures IsRun([s, t], [k.CommitRestored()]) && t.rows == k.Apart()
  {
    NewWordIsUnique(Reread(Resumed(s, k.b), k.b, k.y), k.b, k.format, k.second, k.Beside());
    t := CommitsAs(s, k.b, k.y, [k.second], k.Beside(), Verdict(Unique, None));
    SceneRestored(k);
  }

  lemma CheckOfRun(k: Scene, s: Store) returns (t: Store)
    requires k.Valid() && s.rows == k.Apart()
    ensures IsRun([s, t], [Check(k.b)]) && t.rows == k.Apart() && t.checked == s.checked + multiset{k.b}
  {
    t := s.(checked := s.checked + multiset{k.b});
    RunOfOne(s, t, Check(k.b));
  }

  lemma BecomesChecked(k: Scene) returns (stores: seq<Store>, events: seq<Event>)
    requires k.Valid()
    ensures IsRun(stores, events) && |stores| == 4 && stores[0] == EMPTY
    ensures stores[2].rows == k.Apart() && stores[3].rows == k.Apart() && stores[3].checked == multiset{k.b}
    ensures events == k.Before()
  {
    var s1, s2 := IngestsOfRun(k);
    var s3 := CheckOfRun(k, s2);
    RunOfThree(EMPTY, s1, s2, s3, k.IngestFirst(), k.IngestSecond(), Check(k.b));
    stores, events := [EMPTY, s1, s2, s3], k.Before();
  }

  lemma BecomesDuplicateAndBack(k: Scene, s3: Store) returns (stores: seq<Store>, events: seq<Event>)
    requires k.Valid() && s3.rows == k.Apart() && s3.checked == multiset{k.b}
    ensures IsRun(stores, events) && |stores| == 4 && stores[0] == s3
    ensures stores[2].rows == k.Duplicated() && stores[3].rows == k.Apart()
    ensures events == k.After()
  {
    var s4 := CheckOfRun(k, s3);
    assert s4.checked == multiset{k.b, k.b};
    var s5 := FirstCommitOfRun(k, s4);
    var s6 := SecondCommitOfRun(k, s5);
    RunOfThree(s3, s4, s5, s6, Check(k.b), k.CommitRewritten(), k.CommitRestored());
    stores, events := [s3, s4, s5, s6], k.After();
  }

  /** From the empty store, for any digests: the second archive is an original and is checked
      twice; its file is rewritten to the word of the first, and the first commit makes it a
      duplicate; the file is restored, and the second makes it an original again. */
  lemma RevivingRun(k: Scene) returns (stores: seq<Store>, events: seq<Event>)
    requires k.Valid()
    ensures IsRun(stores, events) && |stores| == 7 && stores[0] == EMPTY && events == k.Before() + k.After()
    ensures stores[2].rows == stores[6].rows == k.Apart() && stores[5].rows == k.Duplicated()
  {
    var before, first := BecomesChecked(k);
    var after, second := BecomesDuplicateAndBack(k, before[3]);
    RunsJoin(before, first, after, second);
    stores, events := before + after[1..], first + second;
    assert stores[2] == before[2] && stores[5] == after[2] && stores[6] == after[3];
  }

  /** No reprocess of an exact duplicate is ever under way: it is one from the start. */
  ghost predicate ExactInv(s: Store) {
    && (forall id :: id in s.checked ==> id in s.rows)
    && forall id :: id in s.rows && s.rows[id].state == ExactDuplicate ==>
       s.rows[id].canonical.Some? && s.checked[id] == 0
  }

  lemma VerdictIsNeverExact(s: Store, id: Id, doc: Document, r: Reading, v: Verdict)
    requires IsVerdict(s, id, doc, r, v)
    ensures v.state != ExactDuplicate
  {
  }

  lemma StepKeepsExact(s: Store, t: Store, e: Event)
    requires ExactInv(s) && Next(s, t, e)
    ensures ExactInv(t)
  {
    match e
    case Ingest(id, content, rank, doc, r) =>
      if id !in s.rows && !Taken(s, content, id) {
        var u := Inserted(s, id, NewRow(doc.format, Some(content), rank));
        var v :| IsVerdict(u, id, doc, r, v) && t == WithVerdict(u, id, doc, r.digests, v);
        VerdictIsNeverExact(u, id, doc, r, v);
      }
    case Commit(id, content, tokens, r) =>
      if !Taken(s, content, id) {
        var u, doc := Reread(Resumed(s, id), id, content), Document(s.rows[id].format, tokens);
        var v :| IsVerdict(u, id, doc, r, v) && t == WithVerdict(u, id, doc, r.digests, v);
        VerdictIsNeverExact(u, id, doc, r, v);
      }
    case _ =>
  }

  lemma {:induction false} ExactAlongRun(stores: seq<Store>, events: seq<Event>, k: nat)
    requires IsRun(stores, events) && stores[0] == EMPTY && k < |stores|
    ensures ExactInv(stores[k])
  {
    if k > 0 {
      ExactAlongRun(stores, events, k - 1);
      assert Next(stores[k - 1], stores[k], events[k - 1]);
      StepKeepsExact(stores[k - 1], stores[k], events[k - 1]);
    }
  }

  /** Over every run, whatever overlaps, an exact duplicate is one forever. */
  lemma ExactDuplicatesArePermanent(stores: seq<Store>, events: seq<Event>, i: nat, id: Id)
    requires IsRun(stores, events) && stores[0] == EMPTY && i < |stores|
    requires id in stores[i].rows && stores[i].rows[id].state == ExactDuplicate
    ensures PermanentFrom(stores[i], id)
  {
    PointersAlwaysGrounded(stores, events, i);
    ExactAlongRun(stores, events, i);
    DuplicateIsPermanentExactlyWhen(stores[i], id);
  }

  /** So an ingest of a grown file with a new shingle ends as related by overlap. */
  lemma GrownIngestIsRelated(s: Store, t: Store, id: Id, content: Id, rank: int, doc: Document, r: Reading, c: Id)
    requires Next(s, t, Ingest(id, content, rank, doc, r)) && id !in s.rows && !Taken(s, content, id)
    requires HasGrown(s, id, doc, r, c) && ShingleSet(doc.tokens) != ShingleSet(TextOf(r, c))
    ensures id in t.rows && t.rows[id].state == OverlapRelated && t.rows[id].canonical.Some?
  {
    var u := Inserted(s, id, NewRow(doc.format, Some(content), rank));
    var v :| IsVerdict(u, id, doc, r, v) && t == WithVerdict(u, id, doc, r.digests, v);
    MatchesAreOthers(s.rows, u.rows, id, PrintOf(doc));
    InsertedCandidates(s, id, NewRow(doc.format, Some(content), rank), doc.tokens, r.digests);
    GrownFileIsRelated(u, id, doc, r, v, c);
  }

  lemma InsertedCandidates(s: Store, id: Id, row: Row, tokens: Tokens, digests: Digests)
    ensures Candidates(Inserted(s, id, row), id, tokens, digests) == Candidates(s, id, tokens, digests)
  {
  }

  // ------------------------------------------------------------ no bytes are stored twice

  /** No two archives hold the same content. */
  ghost predicate ContentsDiffer(rows: map<Id, Row>) {
    forall c, d :: c in rows && d in rows && c != d && rows[c].content.Some? ==> rows[c].content != rows[d].content
  }

  lemma AddedContentDiffers(rows: map<Id, Row>, id: Id, row: Row)
    requires ContentsDiffer(rows)
    requires forall c :: c in rows && c != id && row.content.Some? ==> rows[c].content != row.content
    ensures ContentsDiffer(rows[id := row])
  {
  }

  lemma VerdictKeepsContents(s: Store, id: Id, doc: Document, digests: Digests, v: Verdict)
    requires id in s.rows && ContentsDiffer(s.rows)
    ensures ContentsDiffer(WithVerdict(s, id, doc, digests, v).rows)
  {
  }

  lemma StepKeepsContents(s: Store, t: Store, e: Event)
    requires ContentsDiffer(s.rows) && Next(s, t, e)
    ensures ContentsDiffer(t.rows)
  {
    match e
    case Ingest(id, content, rank, doc, r) =>
      if id !in s.rows {
        if Taken(s, content, id) {
          var c :| c in s.rows && s.rows[c].content == Some(content) && t == Inserted(s, id, ExactRow(s.rows, c, rank));
          AddedContentDiffers(s.rows, id, ExactRow(s.rows, c, rank));
        } else {
          var u := Inserted(s, id, NewRow(doc.format, Some(content), rank));
          var v :| IsVerdict(u, id, doc, r, v) && t == WithVerdict(u, id, doc, r.digests, v);
          AddedContentDiffers(s.rows, id, NewRow(doc.format, Some(content), rank));
          VerdictKeepsContents(u, id, doc, r.digests, v);
        }
      }
    case LateExact(id, canonical, rank) =>
      if t != s { AddedContentDiffers(s.rows, id, ExactRow(s.rows, canonical, rank)); }
    case Check(id) =>
    case Commit(id, content, tokens, r) =>
      if !Taken(s, content, id) {
        var u, doc := Reread(Resumed(s, id), id, content), Document(s.rows[id].format, tokens);
        var v :| IsVerdict(u, id, doc, r, v) && t == WithVerdict(u, id, doc, r.digests, v);
        AddedContentDiffers(s.rows, id, s.rows[id].(content := Some(content)));
        VerdictKeepsContents(u, id, doc, r.digests, v);
      }
    case Migrate(id, format, known, rank) =>
      if t != s { AddedContentDiffers(s.rows, id, NewRow(format, known, rank)); }
  }

  /** Over every run, whatever overlaps, no two archives hold the same content: a file whose
      bytes are known is only ever stored as an exact duplicate. */
  lemma {:induction false} ContentsAreStoredOnce(stores: seq<Store>, events: seq<Event>, k: nat)
    requires IsRun(stores, events) && stores[0] == EMPTY && k < |stores|
    ensures ContentsDiffer(stores[k].rows)
  {
    if k > 0 {
      ContentsAreStoredOnce(stores, events, k - 1);
      StepKeepsContents(stores[k - 1], stores[k], events[k - 1]);
    }
  }

  // ------------------------------------------------- what the fingerprint covers

  /** Every fingerprint is that of the text the archive was last classified with. */
  ghost predicate PrintsOfTexts(s: Store) {
    && s.indexed.Keys <= s.rows.Keys
    && forall c :: c in s.rows && s.rows[c].fingerprint.Some? ==>
         c in s.indexed && s.rows[c].fingerprint == Some(IdentityFingerprint(s.rows[c].format, s.indexed[c]))
  }

  ghost predicate AllPrinted(s: Store) {
    forall c :: c in s.indexed && c in s.rows ==> s.rows[c].fingerprint.Some?
  }

  predicate CarriesPrint(rows: map<Id, Row>, c: Id) {
    c in rows && !IsDuplicate(rows[c].state) && rows[c].fingerprint.Some?
  }

  /** No two originals carry the same fingerprint. */
  ghost predicate PrintsDiffer(rows: map<Id, Row>) {
    forall c, d :: CarriesPrint(rows, c) && CarriesPrint(rows, d) && c != d ==>
      rows[c].fingerprint != rows[d].fingerprint
  }

  ghost predicate PrintInv(s: Store) {
    PrintsOfTexts(s) && AllPrinted(s) && PrintsDiffer(s.rows)
  }

  lemma InsertKeepsPrints(s: Store, id: Id, row: Row)
    requires PrintInv(s) && id !in s.rows && row.fingerprint == None
    ensures PrintInv(Inserted(s, id, row))
  {
    var t := Inserted(s, id, row);
    forall c, d | CarriesPrint(t.rows, c) && CarriesPrint(t.rows, d) && c != d
      ensures t.rows[c].fingerprint != t.rows[d].fingerprint
    {
      assert CarriesPrint(s.rows, c) && CarriesPrint(s.rows, d);
    }
  }

  lemma RereadKeepsPrints(s: Store, id: Id, content: Id)
    requires PrintInv(s) && id in s.rows
    ensures PrintInv(Reread(Resumed(s, id), id, content))
  {
    var t := Reread(Resumed(s, id), id, content);
    forall c, d | CarriesPrint(t.rows, c) && CarriesPrint(t.rows, d) && c != d
      ensures t.rows[c].fingerprint != t.rows[d].fingerprint
    {
      assert CarriesPrint(s.rows, c) && CarriesPrint(s.rows, d);
    }
  }

  lemma VerdictKeepsPrints(s: Store, id: Id, doc: Document, r: Reading, v: Verdict)
    requires PrintInv(s) && id in s.rows && doc.format == s.rows[id].format && IsVerdict(s, id, doc, r, v)
    ensures PrintInv(WithVerdict(s, id, doc, r.digests, v))
  {
    var t := WithVerdict(s, id, doc, r.digests, v);
    forall c, d | CarriesPrint(t.rows, c) && CarriesPrint(t.rows, d) && c != d
      ensures t.rows[c].fingerprint != t.rows[d].fingerprint
    {
      if c != id && d != id {
        assert CarriesPrint(s.rows, c) && CarriesPrint(s.rows, d);
      } else if c == id {
        assert !SameFingerprint(s.rows, id, PrintOf(doc), d);
      } else {
        assert !SameFingerprint(s.rows, id, PrintOf(doc), c);
      }
    }
  }

  lemma StepKeepsPrints(s: Store, t: Store, e: Event)
    requires PrintInv(s) && Next(s, t, e)
    ensures PrintInv(t)
  {
    match e
    case Ingest(id, content, rank, doc, r) =>
      if id !in s.rows {
        if Taken(s, content, id) {
          var c :| c in s.rows && s.rows[c].content == Some(content) && t == Inserted(s, id, ExactRow(s.rows, c, rank));
          InsertKeepsPrints(s, id, ExactRow(s.rows, c, rank));
        } else {
          var u := Inserted(s, id, NewRow(doc.format, Some(content), rank));
          var v :| IsVerdict(u, id, doc, r, v) && t == WithVerdict(u, id, doc, r.digests, v);
          InsertKeepsPrints(s, id, NewRow(doc.format, Some(content), rank));
          VerdictKeepsPrints(u, id, doc, r, v);
        }
      }
    case LateExact(id, canonical, rank) =>
      if t != s { InsertKeepsPrints(s, id, ExactRow(s.rows, canonical, rank)); }
    case Check(id) =>
    case Commit(id, content, tokens, r) =>
      if !Taken(s, content, id) {
        var u, doc := Reread(Resumed(s, id), id, content), Document(s.rows[id].format, tokens);
        var v :| IsVerdict(u, id, doc, r, v) && t == WithVerdict(u, id, doc, r.digests, v);
        RereadKeepsPrints(s, id, content);
        VerdictKeepsPrints(u, id, doc, r, v);
      }
    case Migrate(id, format, known, rank) =>
      if t != s { InsertKeepsPrints(s, id, NewRow(format, known, rank)); }
  }

  lemma {:induction false} PrintsAlongRun(stores: seq<Store>, events: seq<Event>, k: nat)
    requires IsRun(stores, events) && stores[0] == EMPTY && k < |stores|
    ensures PrintInv(stores[k])
  {
    if k > 0 {
      PrintsAlongRun(stores, events, k - 1);
      StepKeepsPrints(stores[k - 1], stores[k], events[k - 1]);
    }
  }

  /** An original that was classified with a text of this format that agrees with the given
      one as far as fingerprints go. */
  predicate CoversSame(s: Store, c: Id, format: Format, tokens: Tokens) {
    && c in s.indexed && c in s.rows && !IsDuplicate(s.rows[c].state)
    && s.rows[c].format == format && Covered(s.indexed[c]) == Covered(tokens)
  }

  /** At any point of any run at most one original covers the same; in particular at most
      one original of each format has been read without text. */
  lemma OneOriginalCoversIt(stores: seq<Store>, events: seq<Event>, k: nat, c: Id, d: Id, format: Format,
                            tokens: Tokens)
    requires IsRun(stores, events) && stores[0] == EMPTY && k < |stores|
    requires CoversSame(stores[k], c, format, tokens) && CoversSame(stores[k], d, format, tokens)
    ensures c == d
  {
    PrintsAlongRun(stores, events, k);
    assert CarriesPrint(stores[k].rows, c) && CarriesPrint(stores[k].rows, d);
  }

  lemma CoveredTextDecides(s: Store, id: Id, doc: Document, r: Reading, v: Verdict, c: Id)
    requires PrintInv(s) && c != id && CoversSame(s, c, doc.format, doc.tokens) && IsVerdict(s, id, doc, r, v)
    ensures v == Verdict(CanonicalDuplicate, Some(c))
  {
    assert SameFingerprint(s.rows, id, PrintOf(doc), c);
    forall d | SameFingerprint(s.rows, id, PrintOf(doc), d)
      ensures d == c
    {
      assert CarriesPrint(s.rows, c) && CarriesPrint(s.rows, d);
    }
  }

  /** A new file that covers the same becomes a duplicate of it, for good, however different
      the rest is: so does every further file that is read without text, whatever it holds. */
  lemma CoveredIngestIsDuplicate(stores: seq<Store>, events: seq<Event>, k: nat, id: Id, content: Id, rank: int,
                                 doc: Document, r: Reading, c: Id)
    requires IsRun(stores, events) && stores[0] == EMPTY && k < |events|
    requires events[k] == Ingest(id, content, rank, doc, r) && id !in stores[k].rows && !Taken(stores[k], content, id)
    requires CoversSame(stores[k], c, doc.format, doc.tokens)
    ensures id in stores[k + 1].rows && PermanentFrom(stores[k + 1], id)
    ensures stores[k + 1].rows[id].state == CanonicalDuplicate && stores[k + 1].rows[id].canonical == Some(c)
  {
    PrintsAlongRun(stores, events, k);
    ExactAlongRun(stores, events, k);
    PointersAlwaysGrounded(stores, events, k + 1);
    assert Next(stores[k], stores[k + 1], events[k]);
    IngestsDuplicate(stores[k], stores[k + 1], id, content, rank, doc, r, c);
    DuplicateIsPermanentExactlyWhen(stores[k + 1], id);
  }

  lemma IngestsDuplicate(s: Store, t: Store, id: Id, content: Id, rank: int, doc: Document, r: Reading, c: Id)
    requires PrintInv(s) && ExactInv(s) && Next(s, t, Ingest(id, content, rank, doc, r))
    requires id !in s.rows && !Taken(s, content, id) && CoversSame(s, c, doc.format, doc.tokens)
    ensures id in t.rows && t.rows[id].state == CanonicalDuplicate && t.rows[id].canonical == Some(c)
            && t.checked[id] == 0
  {
    var row := NewRow(doc.format, Some(content), rank);
    var u := Inserted(s, id, row);
    var v :| IsVerdict(u, id, doc, r, v) && t == WithVerdict(u, id, doc, r.digests, v);
    InsertKeepsPrints(s, id, row);
    assert CoversSame(u, c, doc.format, doc.tokens);
    CoveredTextDecides(u, id, doc, r, v, c);
  }

  // ------------------------------------------------------------- recall of the index

  ghost predicate DigestsAgree(e: Event, digests: Digests) {
    (e.Ingest? || e.Commit?) ==> e.reading.digests == digests
  }

  ghost predicate IndexInv(s: Store, digests: Digests) {
    OriginalsIndexed(s, digests) && s.indexed.Keys <= s.rows.Keys
  }

  lemma InsertKeepsIndexed(s: Store, id: Id, row: Row, digests: Digests)
    requires IndexInv(s, digests) && id !in s.rows
    ensures IndexInv(Inserted(s, id, row), digests)
  {
  }

  lemma VerdictKeepsIndexed(s: Store, id: Id, doc: Document, v: Verdict, digests: Digests)
    requires IndexInv(s, digests) && id in s.rows
    ensures IndexInv(WithVerdict(s, id, doc, digests, v), digests)
  {
    var t := WithVerdict(s, id, doc, digests, v);
    forall c | c in t.indexed && !IsDuplicate(t.rows[c].state)
      ensures BucketsOf(c, t.indexed[c], digests) <= t.buckets
    {
      if c != id {
        assert BucketsOf(c, s.indexed[c], digests) <= s.buckets;
        BucketsNameTheirArchive(c, s.indexed[c], digests);
      }
    }
  }

  lemma BucketsNameTheirArchive(id: Id, tokens: Tokens, digests: Digests)
    ensures forall b :: b in BucketsOf(id, tokens, digests) ==> b.archive == id
  {
  }

  lemma StepKeepsIndexed(s: Store, t: Store, e: Event, digests: Digests)
    requires IndexInv(s, digests) && Next(s, t, e) && DigestsAgree(e, digests)
    ensures IndexInv(t, digests)
  {
    match e
    case Ingest(id, content, rank, doc, r) =>
      if id !in s.rows {
        if Taken(s, content, id) {
          var c :| c in s.rows && s.rows[c].content == Some(content) && t == Inserted(s, id, ExactRow(s.rows, c, rank));
          InsertKeepsIndexed(s, id, ExactRow(s.rows, c, rank), digests);
        } else {
          var u := Inserted(s, id, NewRow(doc.format, Some(content), rank));
          var v :| IsVerdict(u, id, doc, r, v) && t == WithVerdict(u, id, doc, r.digests, v);
          InsertKeepsIndexed(s, id, NewRow(doc.format, Some(content), rank), digests);
          VerdictKeepsIndexed(u, id, doc, v, digests);
        }
      }
    case LateExact(id, canonical, rank) =>
      if t != s { InsertKeepsIndexed(s, id, ExactRow(s.rows, canonical, rank), digests); }
    case Check(id) =>
    case Commit(id, content, tokens, r) =>
      if !Taken(s, content, id) {
        ReprocessKeepsIndexed(Resumed(s, id), t, id, content, Document(s.rows[id].format, tokens), r);
      }
    case Migrate(id, format, known, rank) =>
      if t != s { InsertKeepsIndexed(s, id, NewRow(format, known, rank), digests); }
  }

  lemma ReprocessKeepsIndexed(s: Store, t: Store, id: Id, content: Id, doc: Document, r: Reading)
    requires IndexInv(s, r.digests) && id in s.rows
    requires exists v :: IsVerdict(Reread(s, id, content), id, doc, r, v)
                         && t == WithVerdict(Reread(s, id, content), id, doc, r.digests, v)
    ensures IndexInv(t, r.digests)
  {
    var u := Reread(s, id, content);
    var v :| IsVerdict(u, id, doc, r, v) && t == WithVerdict(u, id, doc, r.digests, v);
    VerdictKeepsIndexed(u, id, doc, v, r.digests);
  }

  lemma {:induction false} IndexStaysComplete(stores: seq<Store>, events: seq<Event>, digests: Digests, k: nat)
    requires IsRun(stores, events) && stores[0] == EMPTY && k < |stores|
    requires forall i :: 0 <= i < |events| ==> DigestsAgree(events[i], digests)
    ensures IndexInv(stores[k], digests)
  {
    if k > 0 {
      IndexStaysComplete(stores, events, digests, k - 1);
      StepKeepsIndexed(stores[k - 1], stores[k], events[k - 1], digests);
    }
  }

  /** At any point of any run, an original whose text has a signature within three bits of
      a new text's is among the new text's candidates. */
  lemma CloseOriginalsAreCandidates(stores: seq<Store>, events: seq<Event>, digests: Digests, k: nat, id: Id,
                                    tokens: Tokens, c: Id)
    requires IsRun(stores, events) && stores[0] == EMPTY && k < |stores|
    requires forall i :: 0 <= i < |events| ==> DigestsAgree(events[i], digests)
    requires c in stores[k].indexed && c != id && !DuplicateRow(stores[k].rows, c)
    requires Shingles(tokens) != [] && Shingles(stores[k].indexed[c]) != []
    requires var text := stores[k].indexed[c];
             Hamming(Signature(Shingles(tokens), digests), Signature(Shingles(text), digests), 0, BITS) <= 3
    ensures c in Candidates(stores[k], id, tokens, digests)
  {
    IndexStaysComplete(stores, events, digests, k);
    var a, b := Signature(Shingles(tokens), digests), Signature(Shingles(stores[k].indexed[c]), digests);
    var band := CloseSignaturesShareABand(a, b);
    var row := Bucket(c, band, Band(b, band));
    assert row in BucketsOf(c, stores[k].indexed[c], digests);
    assert Bucket(id, band, Band(a, band)) in BucketsOf(id, tokens, digests);
    assert row in stores[k].buckets;
  }
}
