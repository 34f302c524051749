/** Three archived texts that show both outcomes of the shared overlap flag. */
module OverlapFlag {
  import opened Wrappers
  import opened OrderedLists
  import opened SimHash
  import opened ArtifactIdentity
  import opened ArchiveStore

  // Three texts over five words. The second says the same as the first from the other word
  // on: all shingles agree, but no beginning or end does. The third shares only the end.

  function Text(x: string, y: string): Tokens {
    [x, y, x, y, x, y]
  }

  function Shifted(x: string, y: string): Tokens {
    [y, x, y, x, y, x]
  }

  function SharedEnd(p: string, q: string, r: string, x: string, y: string): Tokens {
    [p, q, r, x, y, x, y]
  }

  lemma TwoShingles(a: string, b: string)
    ensures ShingleSet([a, b, a, b, a, b]) == {Shingle([a, b, a, b, a]), Shingle([b, a, b, a, b])}
  {
    var t := [a, b, a, b, a, b];
    WindowsAre(t);
    AppendNewMembers([], Windows(t, 2));
    assert t[0..5] == [a, b, a, b, a] && t[1..6] == [b, a, b, a, b];
    assert Windows(t, 2) == [Shingle(t[0..5]), Shingle(t[1..6])];
  }

  lemma WindowsAre(t: Tokens)
    requires |t| >= 6
    ensures Windows(t, 2) == [Shingle(t[0..5]), Shingle(t[1..6])]
  {
    assert Windows(t, 0) == [] && Windows(t, 1) == [Shingle(t[0..5])];
  }

  lemma ThreeShingles(t: Tokens)
    requires |t| == 7
    ensures ShingleSet(t) == {Shingle(t[0..5]), Shingle(t[1..6]), Shingle(t[2..7])}
  {
    WindowsAre(t);
    assert Windows(t, 3) == [Shingle(t[0..5]), Shingle(t[1..6]), Shingle(t[2..7])];
    AppendNewMembers([], Windows(t, 3));
  }

  lemma ShiftedScores(x: string, y: string)
    requires x != y
    ensures Jaccard(ShingleSet(Text(x, y)), ShingleSet(Shifted(x, y))) == 1.0
    ensures IsOverlap(Text(x, y), Shifted(x, y), 0.0, false)
  {
    TwoShingles(x, y);
    TwoShingles(y, x);
    var both := ShingleSet(Text(x, y));
    assert both == ShingleSet(Shifted(x, y)) && Shingle([x, y, x, y, x]) in both;
    assert both * both == both && both + both == both;
    assert IsCommonPrefix(Text(x, y), Shifted(x, y), 0) && IsCommonSuffix(Text(x, y), Shifted(x, y), 0);
    assert Ratio(0, 0, 6) == 0.0;
  }

  lemma SharedEndShingles(p: string, q: string, r: string, x: string, y: string)
    requires r != x && r != y
    ensures Jaccard(ShingleSet(Text(x, y)), ShingleSet(SharedEnd(p, q, r, x, y))) == 0.0
  {
    var a, b := Text(x, y), SharedEnd(p, q, r, x, y);
    TwoShingles(x, y);
    ThreeShingles(b);
    assert b[0..5][2] == r && b[1..6][1] == r && b[2..7][0] == r;
    assert Shingle([x, y, x, y, x]) in ShingleSet(a) && Shingle(b[0..5]) in ShingleSet(b);
    assert ShingleSet(a) * ShingleSet(b) == {};
  }

  lemma SharedEndOverlap(p: string, q: string, r: string, x: string, y: string)
    requires p != x && r != y
    ensures IsOverlap(Text(x, y), SharedEnd(p, q, r, x, y), 4.0 / 6.0, true)
  {
    var a, b := Text(x, y), SharedEnd(p, q, r, x, y);
    assert a[|a| - 4..] == b[|b| - 4..] == [x, y, x, y];
    assert IsCommonPrefix(a, b, 0) && IsCommonSuffix(a, b, 4);
    assert Ratio(0, 4, 6) == 4.0 / 6.0;
  }

  lemma EndIsUnlikeShifted(p: string, q: string, r: string, x: string, y: string)
    requires x != y && r != x && r != y && p != y
    ensures Unlike(SharedEnd(p, q, r, x, y), Shifted(x, y))
  {
    var a, b := SharedEnd(p, q, r, x, y), Shifted(x, y);
    TwoShingles(y, x);
    ThreeShingles(a);
    assert a[0..5][2] == r && a[1..6][1] == r && a[2..7][0] == r;
    assert Shingle(a[0..5]) in ShingleSet(a) && Shingle([x, y, x, y, x]) in ShingleSet(b);
    assert ShingleSet(a) * ShingleSet(b) == {};
    assert IsCommonPrefix(a, b, 0) && IsCommonSuffix(a, b, 0);
    assert Ratio(0, 0, 6) == 0.0;
  }

  lemma ListsTwo(a: string, b: string)
    requires a != b
    ensures Shingles([a, b, a, b, a, b]) == [Shingle([a, b, a, b, a]), Shingle([b, a, b, a, b])]
  {
    var t := [a, b, a, b, a, b];
    var u, v := Shingle([a, b, a, b, a]), Shingle([b, a, b, a, b]);
    WindowsAre(t);
    assert t[0..5] == u.tokens && t[1..6] == v.tokens && u.tokens[0] != v.tokens[0];
    AppendNewConcat([], [u], [v]);
    assert [u] + [v] == [u, v];
    AppendOne([], u);
    AppendOne([u], v);
  }

  /** The same shingles, so the same signature under any digests. */
  lemma SameSignature(x: string, y: string, digests: Digests)
    requires x != y
    ensures Signature(Shingles(Text(x, y)), digests) == Signature(Shingles(Shifted(x, y)), digests)
    ensures Shingles(Text(x, y)) != [] && Shingles(Shifted(x, y)) != []
  {
    ListsTwo(x, y);
    ListsTwo(y, x);
    SignatureIgnoresOrder(Shingles(Text(x, y)), Shingles(Shifted(x, y)), digests);
  }

  predicate ShareABand(a: Tokens, b: Tokens, digests: Digests) {
    exists band :: 0 <= band < BANDS
      && Band(Signature(Shingles(a), digests), band) == Band(Signature(Shingles(b), digests), band)
  }

  /** An archive whose bands are in the index is a candidate for every text that shares one. */
  lemma SharersAreCandidates(s: Store, id: Id, c: Id, tokens: Tokens, text: Tokens, digests: Digests)
    requires c in s.rows && c != id && BucketsOf(c, text, digests) <= s.buckets
    requires Shingles(tokens) != [] && Shingles(text) != [] && ShareABand(tokens, text, digests)
    ensures c in Candidates(s, id, tokens, digests)
  {
    var v, w := Signature(Shingles(tokens), digests), Signature(Shingles(text), digests);
    var band :| 0 <= band < BANDS && Band(v, band) == Band(w, band);
    assert Bucket(c, band, Band(w, band)) in BucketsOf(c, text, digests);
    assert Bucket(id, band, Band(v, band)) in BucketsOf(id, tokens, digests);
  }

  /** Three archives of one format, the contents of their files and what they say. */
  datatype Trio = Trio(near: Id, weak: Id, last: Id, nearFile: Id, weakFile: Id, lastFile: Id, format: Format,
                       nearText: Tokens, weakText: Tokens, lastText: Tokens, digests: Digests)
  {
    predicate Distinct() {
      && near != weak && near != last && weak != last
      && nearFile != weakFile && nearFile != lastFile && weakFile != lastFile
    }

    function Print(text: Tokens): Fingerprint {
      IdentityFingerprint(format, text)
    }

    /** How the texts compare. */
    ghost predicate Compare() {
      && Print(weakText) != Print(nearText) && Print(lastText) != Print(nearText) && Print(lastText) != Print(weakText)
      && Unlike(weakText, nearText)
      && Jaccard(ShingleSet(lastText), ShingleSet(nearText)) == 1.0 && IsOverlap(lastText, nearText, 0.0, false)
      && Jaccard(ShingleSet(lastText), ShingleSet(weakText)) == 0.0 && IsOverlap(lastText, weakText, 4.0 / 6.0, true)
      && Shingles(nearText) != [] && Shingles(weakText) != [] && Shingles(lastText) != []
      && Signature(Shingles(lastText), digests) == Signature(Shingles(nearText), digests)
    }

    ghost predicate Valid() {
      Distinct() && Compare()
    }

    function NearRead(): Reading {
      Reading(map[near := nearText], digests)
    }

    function BothRead(): Reading {
      Reading(map[near := nearText, weak := weakText], digests)
    }

    function IngestNear(): Event {
      Ingest(near, nearFile, 0, Document(format, nearText), Reading(map[], digests))
    }

    function IngestWeak(): Event {
      Ingest(weak, weakFile, 1, Document(format, weakText), NearRead())
    }

    function IngestLast(r: Reading): Event {
      Ingest(last, lastFile, 2, Document(format, lastText), r)
    }
  }

  /** The three texts compare like this when their first words begin differently. */
  lemma TextsCompare(k: Trio, p: string, q: string, r: string, x: string, y: string)
    requires k.nearText == Shifted(x, y) && k.weakText == SharedEnd(p, q, r, x, y) && k.lastText == Text(x, y)
    requires r != x && r != y && p != "" && x != "" && y != "" && p[0] != x[0] && p[0] != y[0] && x[0] != y[0]
    ensures k.Compare()
  {
    FirstLetterShows(k.format, k.weakText, k.nearText);
    FirstLetterShows(k.format, k.lastText, k.nearText);
    FirstLetterShows(k.format, k.lastText, k.weakText);
    EndIsUnlikeShifted(p, q, r, x, y);
    ShiftedScores(x, y);
    SharedEndShingles(p, q, r, x, y);
    SharedEndOverlap(p, q, r, x, y);
    SameSignature(x, y, k.digests);
    EndHasShingles(p, q, r, x, y);
  }

  lemma EndHasShingles(p: string, q: string, r: string, x: string, y: string)
    ensures Shingles(SharedEnd(p, q, r, x, y)) != []
  {
    var t := SharedEnd(p, q, r, x, y);
    ThreeShingles(t);
    assert Shingle(t[0..5]) in ShingleSet(t);
  }

  /** An original that stands in the store under all bands of its text. */
  ghost predicate Holds(s: Store, id: Id, mark: Fingerprint, file: Id, text: Tokens, digests: Digests) {
    && id in s.rows && s.rows[id].fingerprint == Some(mark) && s.rows[id].content == Some(file)
    && !IsDuplicate(s.rows[id].state) && BucketsOf(id, text, digests) <= s.buckets
  }

  ghost predicate HoldsNear(s: Store, k: Trio) {
    Holds(s, k.near, k.Print(k.nearText), k.nearFile, k.nearText, k.digests)
  }

  ghost predicate HoldsWeak(s: Store, k: Trio) {
    Holds(s, k.weak, k.Print(k.weakText), k.weakFile, k.weakText, k.digests)
  }

  lemma OriginalIsIndexed(u: Store, id: Id, doc: Document, digests: Digests)
    requires id in u.rows
    ensures var t := WithVerdict(u, id, doc, digests, Verdict(Unique, None));
            && BucketsOf(id, doc.tokens, digests) <= t.buckets
            && forall b :: b in u.buckets && b.archive != id ==> b in t.buckets
  {
  }

  /** What an ingest that becomes an original leaves behind. */
  lemma ComesIn(s: Store, id: Id, file: Id, rank: int, doc: Document, r: Reading) returns (t: Store)
    requires id !in s.rows && !Taken(s, file, id) && !Matched(s.rows, id, PrintOf(doc))
    requires forall c :: c in s.rows ==> Unlike(doc.tokens, TextOf(r, c))
    ensures IsRun([s, t], [Ingest(id, file, rank, doc, r)]) && t.rows.Keys == s.rows.Keys + {id}
    ensures Holds(t, id, PrintOf(doc), file, doc.tokens, r.digests)
    ensures forall c :: c in s.rows ==> t.rows[c] == s.rows[c]
    ensures forall b :: b in s.buckets && b.archive != id ==> b in t.buckets
  {
    var u := Inserted(s, id, NewRow(doc.format, Some(file), rank));
    MatchesAreOthers(s.rows, u.rows, id, PrintOf(doc));
    CandidatesAreOthers(u, id, doc.tokens, r.digests);
    UnlikeAllIsUnique(u, id, doc, r);
    t := IngestsAs(s, id, file, rank, doc, r, Verdict(Unique, None));
    OriginalIsIndexed(u, id, doc, r.digests);
  }

  lemma StillHolds(s: Store, t: Store, id: Id, mark: Fingerprint, file: Id, text: Tokens, digests: Digests)
    requires Holds(s, id, mark, file, text, digests) && id in t.rows && t.rows[id] == s.rows[id]
    requires forall b :: b in s.buckets && b.archive == id ==> b in t.buckets
    ensures Holds(t, id, mark, file, text, digests)
  {
    BucketsNameTheirArchive(id, text, digests);
  }

  predicate Carries(row: Row, mark: Fingerprint, file: Id) {
    row.fingerprint == Some(mark) && row.content == Some(file)
  }

  /** The store holds nothing but the first two archives. */
  predicate HoldsOnlyThem(s: Store, k: Trio) {
    && s.rows.Keys <= {k.near, k.weak}
    && (k.near in s.rows ==> Carries(s.rows[k.near], k.Print(k.nearText), k.nearFile))
    && (k.weak in s.rows ==> Carries(s.rows[k.weak], k.Print(k.weakText), k.weakFile))
  }

  lemma WeakIsNew(k: Trio, s: Store)
    requires k.Distinct() && k.Print(k.weakText) != k.Print(k.nearText)
    requires HoldsOnlyThem(s, k) && k.weak !in s.rows
    ensures !Taken(s, k.weakFile, k.weak) && !Matched(s.rows, k.weak, k.Print(k.weakText))
  {
    assert forall c :: c in s.rows ==> c == k.near;
  }

  lemma LastIsNew(k: Trio, s: Store)
    requires k.Distinct() && k.Print(k.lastText) != k.Print(k.nearText) && k.Print(k.lastText) != k.Print(k.weakText)
    requires HoldsOnlyThem(s, k)
    ensures k.last !in s.rows && !Taken(s, k.lastFile, k.last) && !Matched(s.rows, k.last, k.Print(k.lastText))
  {
    forall c | c in s.rows
      ensures s.rows[c].content != Some(k.lastFile) && s.rows[c].fingerprint != Some(k.Print(k.lastText))
    {
      assert c == k.near || c == k.weak;
    }
  }

  lemma NearComesIn(k: Trio) returns (s: Store)
    requires k.Valid()
    ensures IsRun([EMPTY, s], [k.IngestNear()]) && s.rows.Keys == {k.near} && HoldsNear(s, k)
  {
    s := ComesIn(EMPTY, k.near, k.nearFile, 0, Document(k.format, k.nearText), Reading(map[], k.digests));
  }

  lemma WeakComesIn(k: Trio, s: Store) returns (t: Store)
    requires k.Valid() && s.rows.Keys == {k.near} && HoldsNear(s, k)
    ensures IsRun([s, t], [k.IngestWeak()]) && t.rows.Keys == {k.near, k.weak} && HoldsNear(t, k) && HoldsWeak(t, k)
  {
    WeakIsNew(k, s);
    t := ComesIn(s, k.weak, k.weakFile, 1, Document(k.format, k.weakText), k.NearRead());
    StillHolds(s, t, k.near, k.Print(k.nearText), k.nearFile, k.nearText, k.digests);
  }

  function NearScore(k: Trio): Scored {
    Scored(k.near, 1.0, 0.0, false)
  }

  function WeakScore(k: Trio): Scored {
    Scored(k.weak, 0.0, 4.0 / 6.0, true)
  }

  /** With the candidates of a text known, so is what becomes of it. */
  lemma LastComesIn(k: Trio, s: Store, r: Reading, cs: seq<Scored>, ids: set<Id>, best: Scored) returns (t: Store)
    requires k.last !in s.rows && !Taken(s, k.lastFile, k.last) && !Matched(s.rows, k.last, k.Print(k.lastText))
    requires Candidates(s, k.last, k.lastText, r.digests) == ids
    requires ScoresCandidates(cs, ids, Document(k.format, k.lastText), r) && IsBest(cs, Some(best))
    ensures IsRun([s, t], [k.IngestLast(r)]) && k.last in t.rows
    ensures t.rows[k.last].state == Decide(Some(best), AnyOverlap(cs)).state
    ensures t.rows[k.last].canonical == Decide(Some(best), AnyOverlap(cs)).canonical
  {
    var doc := Document(k.format, k.lastText);
    var u := Inserted(s, k.last, NewRow(k.format, Some(k.lastFile), 2));
    MatchesAreOthers(s.rows, u.rows, k.last, PrintOf(doc));
    assert Candidates(u, k.last, k.lastText, r.digests) == ids;
    assert IsVerdict(u, k.last, doc, r, Decide(Some(best), AnyOverlap(cs)));
    t := IngestsAs(s, k.last, k.lastFile, 2, doc, r, Decide(Some(best), AnyOverlap(cs)));
  }

  lemma NearIsCandidate(k: Trio, s: Store)
    requires k.Valid() && HoldsNear(s, k)
    ensures k.near in Candidates(s, k.last, k.lastText, k.digests)
  {
    assert Band(Signature(Shingles(k.lastText), k.digests), 0) == Band(Signature(Shingles(k.nearText), k.digests), 0);
    SharersAreCandidates(s, k.last, k.near, k.lastText, k.nearText, k.digests);
  }

  lemma OneListed(doc: Document, r: Reading, a: Scored)
    requires IsScored(doc, r, a) && Score(a) > 0.0 && !OverlapCounts(a)
    ensures ScoresCandidates([a], {a.id}, doc, r) && IsBest([a], Some(a)) && !AnyOverlap([a])
  {
    OneScored(doc, r, a);
    OneIsBest(a);
    NoOverlap(a);
  }

  lemma OneScored(doc: Document, r: Reading, a: Scored)
    requires IsScored(doc, r, a)
    ensures ScoresCandidates([a], {a.id}, doc, r)
  {
    NothingScored(doc, r);
    AddScore([], {}, doc, r, a);
    assert [] + [a] == [a] && {} + {a.id} == {a.id};
  }

  lemma OneIsBest(a: Scored)
    requires Score(a) > 0.0
    ensures IsBest([a], Some(a))
  {
    assert [a][0] == a;
  }

  lemma NoOverlap(a: Scored)
    requires !OverlapCounts(a)
    ensures !AnyOverlap([a])
  {
  }

  lemma TwoListed(doc: Document, r: Reading, a: Scored, b: Scored)
    requires IsScored(doc, r, a) && Score(a) > 0.0 && !OverlapCounts(a)
    requires IsScored(doc, r, b) && Score(b) <= Score(a) && OverlapCounts(b) && a.id != b.id
    ensures ScoresCandidates([a, b], {a.id, b.id}, doc, r) && IsBest([a, b], Some(a)) && AnyOverlap([a, b])
  {
    OneListed(doc, r, a);
    AddScore([a], {a.id}, doc, r, b);
    OldBest([a], a, b);
    assert [a] + [b] == [a, b] && {a.id} + {b.id} == {a.id, b.id};
    assert [a, b][1] == b;
  }

  lemma NearIsScored(k: Trio, r: Reading)
    requires k.Valid() && TextOf(r, k.near) == k.nearText
    ensures IsScored(Document(k.format, k.lastText), r, NearScore(k)) && !OverlapCounts(NearScore(k))
  {
  }

  lemma WeakIsScored(k: Trio, r: Reading)
    requires k.Valid() && TextOf(r, k.weak) == k.weakText
    ensures IsScored(Document(k.format, k.lastText), r, WeakScore(k)) && OverlapCounts(WeakScore(k))
  {
  }

  /** Beside the near text alone the last one is a duplicate of it. */
  lemma LastIsDuplicate(k: Trio, s: Store) returns (t: Store)
    requires k.Valid() && s.rows.Keys == {k.near} && HoldsNear(s, k)
    ensures IsRun([s, t], [k.IngestLast(k.NearRead())]) && k.last in t.rows
    ensures t.rows[k.last].state == CanonicalDuplicate && t.rows[k.last].canonical == Some(k.near)
  {
    LastIsNew(k, s);
    NearIsCandidate(k, s);
    NearIsScored(k, k.NearRead());
    OneListed(Document(k.format, k.lastText), k.NearRead(), NearScore(k));
    assert Candidates(s, k.last, k.lastText, k.digests) == {k.near};
    t := LastComesIn(k, s, k.NearRead(), [NearScore(k)], {k.near}, NearScore(k));
  }

  lemma BothAreCandidates(k: Trio, s: Store)
    requires k.Valid() && s.rows.Keys == {k.near, k.weak} && HoldsNear(s, k) && HoldsWeak(s, k)
    requires ShareABand(k.lastText, k.weakText, k.digests)
    ensures Candidates(s, k.last, k.lastText, k.digests) == {k.near, k.weak}
  {
    NearIsCandidate(k, s);
    SharersAreCandidates(s, k.last, k.weak, k.lastText, k.weakText, k.digests);
  }

  /** Beside both texts, when the weak one is a candidate too, it is only overlap-related. */
  lemma LastIsOverlapRelated(k: Trio, s: Store) returns (t: Store)
    requires k.Valid() && s.rows.Keys == {k.near, k.weak} && HoldsNear(s, k) && HoldsWeak(s, k)
    requires ShareABand(k.lastText, k.weakText, k.digests)
    ensures Candidates(s, k.last, k.lastText, k.digests) == {k.near, k.weak}
    ensures IsRun([s, t], [k.IngestLast(k.BothRead())]) && k.last in t.rows
    ensures t.rows[k.last].state == OverlapRelated && t.rows[k.last].canonical == Some(k.near)
  {
    LastIsNew(k, s);
    BothAreCandidates(k, s);
    NearIsScored(k, k.BothRead());
    WeakIsScored(k, k.BothRead());
    TwoListed(Document(k.format, k.lastText), k.BothRead(), NearScore(k), WeakScore(k));
    t := LastComesIn(k, s, k.BothRead(), [NearScore(k), WeakScore(k)], {k.near, k.weak}, NearScore(k));
  }

  /** Beside the near text alone the last one becomes a duplicate of it. */
  lemma AloneIsDuplicate(k: Trio) returns (s: Store, t: Store)
    requires k.Valid()
    ensures IsRun([EMPTY, s, t], [k.IngestNear(), k.IngestLast(k.NearRead())])
    ensures k.last in t.rows && t.rows[k.last].state == CanonicalDuplicate && t.rows[k.last].canonical == Some(k.near)
  {
    s := NearComesIn(k);
    t := LastIsDuplicate(k, s);
    RunOfTwo(EMPTY, s, t, k.IngestNear(), k.IngestLast(k.NearRead()));
  }

  /** With the weak text ingested in between it becomes overlap-related, under all digests
      for which the weak text is a candidate. */
  lemma BesideIsOverlapRelated(k: Trio) returns (s: Store, t: Store, u: Store)
    requires k.Valid() && ShareABand(k.lastText, k.weakText, k.digests)
    ensures IsRun([EMPTY, s, t, u], [k.IngestNear(), k.IngestWeak(), k.IngestLast(k.BothRead())])
    ensures Candidates(t, k.last, k.lastText, k.digests) == {k.near, k.weak}
    ensures k.last in u.rows && u.rows[k.last].state == OverlapRelated && u.rows[k.last].canonical == Some(k.near)
  {
    s := NearComesIn(k);
    t := WeakComesIn(k, s);
    u := LastIsOverlapRelated(k, t);
    RunOfThree(EMPTY, s, t, u, k.IngestNear(), k.IngestWeak(), k.IngestLast(k.BothRead()));
  }

  lemma {:induction false} UniformWeight(shingles: seq<Shingle>, i: nat)
    requires shingles != []
    ensures Weight(shingles, map[], i) >= 0 <==> Bit(0, i)
    ensures Weight(shingles, map[], i) != 0
  {
    if |shingles| > 1 {
      UniformWeight(shingles[..|shingles| - 1], i);
    }
  }

  /** There are such digests: under equal digests for all shingles any two texts share. */
  lemma EqualDigestsShare(a: Tokens, b: Tokens)
    requires Shingles(a) != [] && Shingles(b) != []
    ensures ShareABand(a, b, map[])
  {
    forall i | 0 <= i < BITS
      ensures Weight(Shingles(a), map[], i) >= 0 <==> Weight(Shingles(b), map[], i) >= 0
    {
      UniformWeight(Shingles(a), i);
      UniformWeight(Shingles(b), i);
    }
    assert SignBits(Shingles(a), map[], BITS) == SignBits(Shingles(b), map[], BITS);
    assert Band(Signature(Shingles(a), map[]), 0) == Band(Signature(Shingles(b), map[]), 0);
  }

  /** Both outcomes happen: the shifted text alone makes the last one a duplicate of it; with
      the text that shares the end ingested in between, both are candidates and the last one
      is overlap-related. */
  lemma OverlapFlagExample(k: Trio, p: string, q: string, r: string, x: string, y: string)
      returns (s: Store, alone: Store, t: Store, u: Store, beside: Store)
    requires k.nearText == Shifted(x, y) && k.weakText == SharedEnd(p, q, r, x, y) && k.lastText == Text(x, y)
    requires r != x && r != y && p != "" && x != "" && y != "" && p[0] != x[0] && p[0] != y[0] && x[0] != y[0]
    requires k.Distinct() && ShareABand(k.lastText, k.weakText, k.digests)
    ensures IsRun([EMPTY, s, alone], [k.IngestNear(), k.IngestLast(k.NearRead())])
    ensures k.last in alone.rows && alone.rows[k.last].state == CanonicalDuplicate
    ensures IsRun([EMPTY, t, u, beside], [k.IngestNear(), k.IngestWeak(), k.IngestLast(k.BothRead())])
    ensures Candidates(u, k.last, k.lastText, k.digests) == {k.near, k.weak}
    ensures k.last in beside.rows && beside.rows[k.last].state == OverlapRelated
  {
    TextsCompare(k, p, q, r, x, y);
    s, alone := AloneIsDuplicate(k);
    t, u, beside := BesideIsOverlapRelated(k);
  }
}
