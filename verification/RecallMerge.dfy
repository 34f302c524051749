/** Merging the candidates of the recall channels by note id.

    `RecallCandidate` is the mutable object; `Candidate` is its value. */
module RecallMerge {
  import opened Wrappers
  import opened OrderedLists

  /** The fields only the first candidate of an id contributes. */
  datatype Fixed = Fixed(title: string, kind: string, status: Option<string>, bodyPath: string)

  datatype Scores = Scores(exactRank: Option<int>, bm25Rank: Option<int>, bm25: Option<real>, semantic: Option<real>,
                           graph: Option<real>, learned: Option<real>, graphDepth: Option<int>)
  datatype Dates = Dates(updated: Option<string>, created: Option<string>, lastVerified: Option<string>)

  datatype Candidate = Candidate(
    id: Id, fixed: Fixed, chainId: Option<string>, lifecycle: Option<string>, summary: string, body: string,
    channels: set<string>, relationTypes: seq<Relation>, seedFromIds: seq<Id>, scores: Scores, dates: Dates)

  function FirstText(a: string, b: string): string {
    if a == "" then b else a
  }

  /** A missing or empty date is replaced by a proper one. */
  function FirstDate(a: Option<string>, b: Option<string>): Option<string> {
    if (a.Some? && a.value != "") || b.None? || b.value == "" then a else b
  }

  function FirstScores(a: Scores, b: Scores): Scores {
    Scores(FirstPresent(a.exactRank, b.exactRank), FirstPresent(a.bm25Rank, b.bm25Rank), FirstPresent(a.bm25, b.bm25),
           FirstPresent(a.semantic, b.semantic), FirstPresent(a.graph, b.graph), FirstPresent(a.learned, b.learned),
           FirstPresent(a.graphDepth, b.graphDepth))
  }

  function FirstDates(a: Dates, b: Dates): Dates {
    Dates(FirstDate(a.updated, b.updated), FirstDate(a.created, b.created), FirstDate(a.lastVerified, b.lastVerified))
  }

  function Combine(a: Candidate, b: Candidate): Candidate {
    Candidate(
      a.id, a.fixed, FirstPresent(a.chainId, b.chainId), FirstPresent(a.lifecycle, b.lifecycle),
      FirstText(a.summary, b.summary), FirstText(a.body, b.body), a.channels + b.channels,
      AppendNew(a.relationTypes, b.relationTypes), AppendNew(a.seedFromIds, b.seedFromIds),
      FirstScores(a.scores, b.scores), FirstDates(a.dates, b.dates))
  }

  lemma CombineAssociative(a: Candidate, b: Candidate, c: Candidate)
    ensures Combine(Combine(a, b), c) == Combine(a, Combine(b, c))
  {
    AppendNewAssociative(a.relationTypes, b.relationTypes, c.relationTypes);
    AppendNewAssociative(a.seedFromIds, b.seedFromIds, c.seedFromIds);
    assert a.channels + b.channels + c.channels == a.channels + (b.channels + c.channels);
  }

  // ------------------------------------------------------------- specification

  /** One step of the merge: combine with the candidate of the same id, or append. */
  function InsertInto(merged: seq<Candidate>, c: Candidate): seq<Candidate> {
    if merged == [] then [c]
    else if merged[0].id == c.id then [Combine(merged[0], c)] + merged[1..]
    else [merged[0]] + InsertInto(merged[1..], c)
  }

  function MergeInto(merged: seq<Candidate>, cs: seq<Candidate>): seq<Candidate>
    decreases cs
  {
    if cs == [] then merged else MergeInto(InsertInto(merged, cs[0]), cs[1..])
  }

  function Merge(cs: seq<Candidate>): seq<Candidate> {
    MergeInto([], cs)
  }

  function Ids(cs: seq<Candidate>): seq<Id> {
    if cs == [] then [] else [cs[0].id] + Ids(cs[1..])
  }

  // -------------------------------------------------------------- homomorphism

  lemma {:induction false} InsertTwice(merged: seq<Candidate>, a: Candidate, b: Candidate)
    requires a.id == b.id
    ensures InsertInto(InsertInto(merged, a), b) == InsertInto(merged, Combine(a, b))
  {
    if merged != [] {
      if merged[0].id == a.id {
        CombineAssociative(merged[0], a, b);
      } else {
        InsertTwice(merged[1..], a, b);
        assert ([merged[0]] + InsertInto(merged[1..], a))[1..] == InsertInto(merged[1..], a);
      }
    }
  }

  /** Two insertions of different ids commute when one of them is only an update. */
  lemma {:induction false} InsertCommutes(merged: seq<Candidate>, a: Candidate, b: Candidate)
    requires a.id != b.id && b.id in Ids(merged)
    ensures InsertInto(InsertInto(merged, a), b) == InsertInto(InsertInto(merged, b), a)
  {
    var head, rest := merged[0], merged[1..];
    assert ([head] + InsertInto(rest, a))[1..] == InsertInto(rest, a);
    assert ([head] + InsertInto(rest, b))[1..] == InsertInto(rest, b);
    assert ([Combine(head, a)] + rest)[1..] == rest && ([Combine(head, b)] + rest)[1..] == rest;
    if head.id != a.id && head.id != b.id {
      InsertCommutes(rest, a, b);
    }
  }

  lemma {:induction false} InsertIds(merged: seq<Candidate>, c: Candidate)
    ensures Ids(InsertInto(merged, c)) == AppendNew(Ids(merged), [c.id])
  {
    AppendOne(Ids(merged), c.id);
    if merged != [] {
      assert ([merged[0]] + InsertInto(merged[1..], c))[1..] == InsertInto(merged[1..], c);
      assert ([Combine(merged[0], c)] + merged[1..])[1..] == merged[1..];
      if merged[0].id != c.id {
        InsertIds(merged[1..], c);
        AppendOne(Ids(merged[1..]), c.id);
      }
    }
  }

  lemma {:induction false} InsertPastMerge(merged: seq<Candidate>, cs: seq<Candidate>, c: Candidate)
    requires c.id in Ids(merged) && c.id !in Ids(cs)
    ensures InsertInto(MergeInto(merged, cs), c) == MergeInto(InsertInto(merged, c), cs)
    decreases cs
  {
    if cs != [] {
      InsertIds(merged, cs[0]);
      AppendNewMembers(Ids(merged), [cs[0].id]);
      InsertPastMerge(InsertInto(merged, cs[0]), cs[1..], c);
      InsertCommutes(merged, cs[0], c);
    }
  }

  lemma {:induction false} InsertInsideMerge(merged: seq<Candidate>, cs: seq<Candidate>, c: Candidate)
    requires NoRepeats(Ids(cs))
    ensures InsertInto(MergeInto(merged, cs), c) == MergeInto(merged, InsertInto(cs, c))
    decreases cs
  {
    if cs == [] {
      assert [c][1..] == [];
    } else {
      var head, rest := cs[0], cs[1..];
      assert Ids(cs)[1..] == Ids(rest);
      assert ([head] + InsertInto(rest, c))[1..] == InsertInto(rest, c);
      assert ([Combine(head, c)] + rest)[1..] == rest;
      if head.id == c.id {
        InsertIds(merged, head);
        AppendNewMembers(Ids(merged), [head.id]);
        InsertPastMerge(InsertInto(merged, head), rest, c);
        InsertTwice(merged, head, c);
      } else {
        InsertInsideMerge(InsertInto(merged, head), rest, c);
      }
    }
  }

  lemma {:induction false} MergeIntoSnoc(merged: seq<Candidate>, cs: seq<Candidate>, c: Candidate)
    ensures MergeInto(merged, cs + [c]) == InsertInto(MergeInto(merged, cs), c)
    decreases cs
  {
    if cs == [] {
      assert cs + [c] == [c] && [c][1..] == [];
    } else {
      assert (cs + [c])[1..] == cs[1..] + [c];
      MergeIntoSnoc(InsertInto(merged, cs[0]), cs[1..], c);
    }
  }

  lemma {:induction false} MergeIntoConcat(merged: seq<Candidate>, a: seq<Candidate>, b: seq<Candidate>)
    ensures MergeInto(merged, a + b) == MergeInto(MergeInto(merged, a), b)
    decreases a
  {
    if a == [] {
      assert a + b == b;
    } else {
      assert (a + b)[1..] == a[1..] + b;
      MergeIntoConcat(InsertInto(merged, a[0]), a[1..], b);
    }
  }

  /** The ids of a merge are the ids of its input, each once, in first-occurrence order. */
  lemma {:induction false} MergedIds(cs: seq<Candidate>)
    ensures Ids(Merge(cs)) == DedupeOrdered(Ids(cs)) && NoRepeats(Ids(Merge(cs)))
  {
    if cs != [] {
      var front, last := cs[..|cs| - 1], cs[|cs| - 1];
      assert cs == front + [last];
      MergedIds(front);
      MergeIntoSnoc([], front, last);
      InsertIds(Merge(front), last);
      IdsConcat(front, [last]);
      assert [last][1..] == [] && Ids([last]) == [last.id];
      AppendNewConcat([], Ids(front), [last.id]);
      AppendNewMembers(Ids(Merge(front)), [last.id]);
    }
  }

  lemma {:induction false} IdsConcat(a: seq<Candidate>, b: seq<Candidate>)
    ensures Ids(a + b) == Ids(a) + Ids(b)
  {
    if a == [] {
      assert a + b == b;
    } else {
      assert (a + b)[1..] == a[1..] + b;
      IdsConcat(a[1..], b);
    }
  }

  /** Merging an already merged list into anything is the same as merging the raw list. */
  lemma {:induction false} MergeAbsorbsMerge(merged: seq<Candidate>, cs: seq<Candidate>)
    ensures MergeInto(merged, Merge(cs)) == MergeInto(merged, cs)
  {
    if cs != [] {
      var front, last := cs[..|cs| - 1], cs[|cs| - 1];
      assert cs == front + [last];
      MergeAbsorbsMerge(merged, front);
      MergeIntoSnoc(merged, front, last);
      MergeIntoSnoc([], front, last);
      MergedIds(front);
      InsertInsideMerge(merged, Merge(front), last);
    }
  }

  /** Merging is a homomorphism from lists with concatenation. */
  lemma MergeIsHomomorphism(a: seq<Candidate>, b: seq<Candidate>)
    ensures Merge(Merge(a) + Merge(b)) == Merge(a + b)
  {
    MergeIntoConcat([], Merge(a), Merge(b));
    MergeAbsorbsMerge([], a);
    MergeAbsorbsMerge(Merge(a), b);
    MergeIntoConcat([], a, b);
  }

  /** Recall merges the direct channels, finds graph candidates from the result, and merges
      everything again from scratch: the same as merging the graph candidates into the
      first result. */
  lemma TwoStageRecall(exact: seq<Candidate>, bm25: seq<Candidate>, semantic: seq<Candidate>, graph: seq<Candidate>)
    ensures Merge(exact + bm25 + semantic + graph) == Merge(Merge(exact + bm25 + semantic) + graph)
  {
    var direct := exact + bm25 + semantic;
    MergeIntoConcat([], direct, graph);
    MergeIntoConcat([], Merge(direct), graph);
    MergeAbsorbsMerge([], direct);
  }

  /** The merged candidate of `c`'s id keeps everything `c` brings. */
  ghost predicate Keeps(m: Candidate, c: Candidate) {
    && m.id == c.id && c.channels <= m.channels
    && (forall r :: r in c.relationTypes ==> r in m.relationTypes)
    && (forall s :: s in c.seedFromIds ==> s in m.seedFromIds)
  }

  lemma {:induction false} InsertKeeps(merged: seq<Candidate>, c: Candidate)
    ensures exists m :: m in InsertInto(merged, c) && Keeps(m, c)
    ensures forall m :: m in merged ==> exists m' :: m' in InsertInto(merged, c) && Keeps(m', m)
  {
    if merged == [] {
      assert Keeps(c, c) && c in [c];
    } else {
      var head, rest, after := merged[0], merged[1..], InsertInto(merged, c);
      AppendNewMembers(head.relationTypes, c.relationTypes);
      AppendNewMembers(head.seedFromIds, c.seedFromIds);
      InsertKeeps(rest, c);
      assert after[0] in after;
      assert Keeps(after[0], head);
      if head.id == c.id {
        assert Keeps(after[0], c);
        forall m | m in rest ensures m in after && Keeps(m, m) { }
      } else {
        forall m | m in InsertInto(rest, c) ensures m in after { }
      }
      assert forall m :: m in merged ==> m == head || m in rest;
    }
  }

  lemma {:induction false} NothingIsLost(cs: seq<Candidate>, c: Candidate)
    requires c in cs
    ensures exists m :: m in Merge(cs) && Keeps(m, c)
  {
    var front, last := cs[..|cs| - 1], cs[|cs| - 1];
    assert cs == front + [last];
    MergeIntoSnoc([], front, last);
    InsertKeeps(Merge(front), last);
    if c in front {
      NothingIsLost(front, c);
      var m :| m in Merge(front) && Keeps(m, c);
      var m' :| m' in InsertInto(Merge(front), last) && Keeps(m', m);
      assert Keeps(m', c);
    }
  }

  // ---------------------------------------------------------- what an entry consists of

  /** The candidates of one id, in input order. */
  function Of(cs: seq<Candidate>, id: Id): seq<Candidate> {
    if cs == [] then []
    else
      var last := cs[|cs| - 1];
      Of(cs[..|cs| - 1], id) + if last.id == id then [last] else []
  }

  function Fold(occurrences: seq<Candidate>): Candidate
    requires occurrences != []
  {
    var n := |occurrences| - 1;
    if n == 0 then occurrences[0] else Combine(Fold(occurrences[..n]), occurrences[n])
  }

  lemma {:induction false} InsertedMember(merged: seq<Candidate>, c: Candidate, m: Candidate)
    requires NoRepeats(Ids(merged)) && m in InsertInto(merged, c)
    ensures m.id in Ids(merged) || m.id == c.id
    ensures m.id != c.id ==> m in merged
    ensures m.id == c.id ==>
              || (c.id !in Ids(merged) && m == c)
              || exists h :: h in merged && h.id == c.id && m == Combine(h, c)
  {
    if merged != [] {
      var head, rest := merged[0], merged[1..];
      assert Ids(merged)[1..] == Ids(rest);
      if head.id == c.id {
        if m != Combine(head, c) {
          assert m in rest;
          IdListed(rest, m);
        }
      } else if m != head {
        assert m in InsertInto(rest, c);
        InsertedMember(rest, c, m);
      }
    }
  }

  lemma {:induction false} IdListed(cs: seq<Candidate>, m: Candidate)
    requires m in cs
    ensures m.id in Ids(cs)
  {
    if m != cs[0] {
      IdListed(cs[1..], m);
    }
  }

  lemma {:induction false} IdsOfOthers(cs: seq<Candidate>, id: Id)
    ensures id in Ids(cs) <==> Of(cs, id) != []
  {
    if cs != [] {
      var front, last := cs[..|cs| - 1], cs[|cs| - 1];
      assert cs == front + [last];
      IdsConcat(front, [last]);
      IdsOfOthers(front, id);
      assert Ids([last]) == [last.id];
    }
  }

  /** Every entry of the merge is all the candidates of its id, combined in input order. */
  lemma {:induction false} MergedIsFold(cs: seq<Candidate>, m: Candidate)
    requires m in Merge(cs)
    ensures Of(cs, m.id) != [] && m == Fold(Of(cs, m.id))
  {
    if cs != [] {
      var front, last := cs[..|cs| - 1], cs[|cs| - 1];
      assert cs == front + [last];
      MergeIntoSnoc([], front, last);
      MergedIds(front);
      InsertedMember(Merge(front), last, m);
      if m.id != last.id {
        MergedIsFold(front, m);
        assert Of(front, m.id) + [] == Of(front, m.id);
      } else if last.id in Ids(Merge(front)) {
        var h :| h in Merge(front) && h.id == last.id && m == Combine(h, last);
        MergedIsFold(front, h);
        var all := Of(cs, m.id);
        assert all[..|all| - 1] == Of(front, m.id);
      } else {
        AppendNewMembers([], Ids(front));
        IdsOfOthers(front, last.id);
        forall h | h in Merge(front)
          ensures h.id != last.id
        {
          IdListed(Merge(front), h);
        }
        assert Of(cs, last.id) == [last];
      }
    }
  }

  datatype TextSlot = ChainId | Lifecycle | Summary | Body | Updated | Created | LastVerified

  /** A text field; an empty summary, body or date counts as absent. */
  function TextOf(c: Candidate, slot: TextSlot): Option<string> {
    match slot
    case ChainId => c.chainId
    case Lifecycle => c.lifecycle
    case Summary => NonEmpty(Some(c.summary))
    case Body => NonEmpty(Some(c.body))
    case Updated => NonEmpty(c.dates.updated)
    case Created => NonEmpty(c.dates.created)
    case LastVerified => NonEmpty(c.dates.lastVerified)
  }

  function NonEmpty(text: Option<string>): Option<string> {
    if text == Some("") then None else text
  }

  datatype NumberSlot = ExactRank | Bm25Rank | Bm25 | Semantic | Graph | Learned | GraphDepth

  function NumberOf(c: Candidate, slot: NumberSlot): Option<real> {
    match slot
    case ExactRank => AsReal(c.scores.exactRank)
    case Bm25Rank => AsReal(c.scores.bm25Rank)
    case Bm25 => c.scores.bm25
    case Semantic => c.scores.semantic
    case Graph => c.scores.graph
    case Learned => c.scores.learned
    case GraphDepth => AsReal(c.scores.graphDepth)
  }

  function AsReal(n: Option<int>): Option<real> {
    if n.None? then None else Some(n.value as real)
  }

  function Texts(cs: seq<Candidate>, slot: TextSlot): (r: seq<Option<string>>)
    ensures |r| == |cs| && forall k :: 0 <= k < |cs| ==> r[k] == TextOf(cs[k], slot)
  {
    if cs == [] then [] else Texts(cs[..|cs| - 1], slot) + [TextOf(cs[|cs| - 1], slot)]
  }

  function Numbers(cs: seq<Candidate>, slot: NumberSlot): (r: seq<Option<real>>)
    ensures |r| == |cs| && forall k :: 0 <= k < |cs| ==> r[k] == NumberOf(cs[k], slot)
  {
    if cs == [] then [] else Numbers(cs[..|cs| - 1], slot) + [NumberOf(cs[|cs| - 1], slot)]
  }

  /** `r` is the first value that is present. */
  predicate IsFirst<T(==)>(r: Option<T>, values: seq<Option<T>>) {
    if r == None then forall k :: 0 <= k < |values| ==> values[k] == None
    else exists k :: 0 <= k < |values| && values[k] == r && forall j :: 0 <= j < k ==> values[j] == None
  }

  lemma FirstOfMore<T>(r: Option<T>, values: seq<Option<T>>, last: Option<T>)
    requires IsFirst(r, values)
    ensures IsFirst(FirstPresent(r, last), values + [last])
  {
    var more := values + [last];
    if r != None {
      var k :| 0 <= k < |values| && values[k] == r && forall j :: 0 <= j < k ==> values[j] == None;
      assert more[k] == r;
    } else {
      assert more[|values|] == last;
    }
  }

  lemma CombineKeepsFirst(a: Candidate, b: Candidate, text: TextSlot, number: NumberSlot)
    ensures TextOf(Combine(a, b), text) == FirstPresent(TextOf(a, text), TextOf(b, text))
    ensures NumberOf(Combine(a, b), number) == FirstPresent(NumberOf(a, number), NumberOf(b, number))
  {
  }

  lemma {:induction false} FoldKeepsFirst(cs: seq<Candidate>, text: TextSlot, number: NumberSlot)
    requires cs != []
    ensures IsFirst(TextOf(Fold(cs), text), Texts(cs, text))
    ensures IsFirst(NumberOf(Fold(cs), number), Numbers(cs, number))
  {
    var n := |cs| - 1;
    if n > 0 {
      var front := cs[..n];
      FoldKeepsFirst(front, text, number);
      CombineKeepsFirst(Fold(front), cs[n], text, number);
      FirstOfMore(TextOf(Fold(front), text), Texts(front, text), TextOf(cs[n], text));
      FirstOfMore(NumberOf(Fold(front), number), Numbers(front, number), NumberOf(cs[n], number));
    } else {
      assert Texts(cs, text)[0] == TextOf(cs[0], text) && Numbers(cs, number)[0] == NumberOf(cs[0], number);
    }
  }

  /** Each optional field of an entry, taken on its own, is the first that is present among
      the candidates of its id. */
  lemma MergedFields(cs: seq<Candidate>, m: Candidate, text: TextSlot, number: NumberSlot)
    requires m in Merge(cs)
    ensures IsFirst(TextOf(m, text), Texts(Of(cs, m.id), text))
    ensures IsFirst(NumberOf(m, number), Numbers(Of(cs, m.id), number))
  {
    MergedIsFold(cs, m);
    FoldKeepsFirst(Of(cs, m.id), text, number);
  }

  /** What is fixed comes from the first candidate of the id; nothing that no candidate of it
      brought is added. */
  lemma {:induction false} FoldAddsNothing(cs: seq<Candidate>)
    requires cs != []
    ensures Fold(cs).id == cs[0].id && Fold(cs).fixed == cs[0].fixed
    ensures forall x :: x in Fold(cs).channels ==> exists k :: 0 <= k < |cs| && x in cs[k].channels
    ensures forall x :: x in Fold(cs).relationTypes ==> exists k :: 0 <= k < |cs| && x in cs[k].relationTypes
    ensures forall x :: x in Fold(cs).seedFromIds ==> exists k :: 0 <= k < |cs| && x in cs[k].seedFromIds
  {
    var n := |cs| - 1;
    if n > 0 {
      var front := cs[..n];
      FoldAddsNothing(front);
      AppendNewMembers(Fold(front).relationTypes, cs[n].relationTypes);
      AppendNewMembers(Fold(front).seedFromIds, cs[n].seedFromIds);
      assert forall k :: 0 <= k < n ==> front[k] == cs[k];
    }
  }

  // ------------------------------------------------------------ implementation

  class RecallCandidate {
    const id: Id
    const fixed: Fixed
    var chainId: Option<string>
    var lifecycle: Option<string>
    var summary: string
    var body: string
    var channels: set<string>
    var relationTypes: seq<Relation>
    var seedFromIds: seq<Id>
    var scores: Scores
    var dates: Dates

    function Value(): Candidate
      reads this
    {
      Candidate(id, fixed, chainId, lifecycle, summary, body, channels, relationTypes, seedFromIds, scores, dates)
    }

    constructor (c: Candidate)
      ensures Value() == c
    {
      id, fixed, chainId, lifecycle := c.id, c.fixed, c.chainId, c.lifecycle;
      summary, body, channels := c.summary, c.body, c.channels;
      relationTypes, seedFromIds, scores, dates := c.relationTypes, c.seedFromIds, c.scores, c.dates;
    }

    /** Takes over what a candidate of the same id knows and `this` does not. */
    method Absorb(other: Candidate)
      modifies this
      ensures Value() == Combine(old(Value()), other)
    {
      channels := channels + other.channels;
      chainId, lifecycle := FirstPresent(chainId, other.chainId), FirstPresent(lifecycle, other.lifecycle);
      summary, body := FirstText(summary, other.summary), FirstText(body, other.body);
      scores := FirstScores(scores, other.scores);
      var relations := AppendNewLoop(relationTypes, other.relationTypes);
      var seeds := AppendNewLoop(seedFromIds, other.seedFromIds);
      relationTypes, seedFromIds := relations, seeds;
      dates := FirstDates(dates, other.dates);
    }
  }

  ghost function Values(cs: seq<RecallCandidate>): seq<Candidate>
    reads cs
  {
    seq(|cs|, i requires 0 <= i < |cs| reads cs => cs[i].Value())
  }

  /** The result consists of new objects whose values are the merge of the inputs' values.
      The method modifies nothing that existed before, so no input is mutated. */
  method MergeWikiCandidates(candidates: seq<RecallCandidate>) returns (merged: seq<RecallCandidate>)
    ensures forall m :: m in merged ==> fresh(m)
    ensures Values(merged) == Merge(Values(candidates))
  {
    merged := [];
    for i := 0 to |candidates|
      invariant NoRepeats(merged) && forall j :: 0 <= j < |merged| ==> fresh(merged[j])
      invariant Values(merged) == Merge(Values(candidates)[..i])
    {
      MergeStep(Values(candidates), i);
      merged := MergeOne(merged, candidates[i].Value());
    }
    assert Values(candidates)[..|candidates|] == Values(candidates);
  }

  /** One candidate is absorbed by the entry of its id, or a copy of it becomes a new entry. */
  method MergeOne(merged: seq<RecallCandidate>, c: Candidate) returns (after: seq<RecallCandidate>)
    requires NoRepeats(merged)
    modifies merged
    ensures NoRepeats(after) && forall j :: 0 <= j < |after| ==> fresh(after[j]) || after[j] in merged
    ensures Values(after) == InsertInto(old(Values(merged)), c)
  {
    var k := Position(merged, c.id);
    ghost var before := Values(merged);
    assert forall j :: 0 <= j < |merged| ==> before[j].id == merged[j].id;
    InsertAt(before, k, c);
    if k < |merged| {
      assert forall j :: 0 <= j < |merged| && j != k ==> merged[j] != merged[k];
      merged[k].Absorb(c);
      after := merged;
      assert forall j :: 0 <= j < |merged| && j != k ==> merged[j].Value() == before[j];
      assert Values(after) == before[k := Combine(before[k], c)];
    } else {
      var copy := new RecallCandidate(c);
      after := merged + [copy];
      assert Values(after) == before + [c];
    }
  }

  method Position(merged: seq<RecallCandidate>, id: Id) returns (k: nat)
    ensures k <= |merged| && (forall j :: 0 <= j < k ==> merged[j].id != id) && (k < |merged| ==> merged[k].id == id)
  {
    k := 0;
    while k < |merged| && merged[k].id != id
      invariant k <= |merged| && forall j :: 0 <= j < k ==> merged[j].id != id
    {
      k := k + 1;
    }
  }

  lemma MergeStep(cs: seq<Candidate>, i: nat)
    requires i < |cs|
    ensures Merge(cs[..i + 1]) == InsertInto(Merge(cs[..i]), cs[i])
  {
    assert cs[..i + 1] == cs[..i] + [cs[i]];
    MergeIntoSnoc([], cs[..i], cs[i]);
  }

  lemma {:induction false} InsertAt(merged: seq<Candidate>, k: nat, c: Candidate)
    requires k <= |merged| && (forall j :: 0 <= j < k ==> merged[j].id != c.id)
             && (k < |merged| ==> merged[k].id == c.id)
    ensures InsertInto(merged, c) == if k < |merged| then merged[k := Combine(merged[k], c)] else merged + [c]
  {
    if k > 0 {
      InsertAt(merged[1..], k - 1, c);
      assert merged == [merged[0]] + merged[1..];
    } else if merged != [] {
      assert merged[0 := Combine(merged[0], c)] == [Combine(merged[0], c)] + merged[1..];
    }
  }
}
