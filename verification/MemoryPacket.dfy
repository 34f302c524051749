/** The memory packet and the removal of duplicates across its six slots.

    `RuntimeMemory` is the mutable object; `Meta` is the value of the fields that duplicates
    contribute to. The slots are, in order: primary memories, same-episode
    context, and the memories related by topic, timeline, similarity and contrast. */
module MemoryPacket {
  import opened Wrappers
  import opened OrderedLists

  const SLOTS: nat := 6

  datatype Tag = Tag(text: string)

  datatype Meta = Meta(channels: seq<Tag>, relations: seq<Relation>, provenance: seq<Tag>, rank: Option<int>,
                       score: real, traceSource: Option<Tag>, traceDepth: Option<nat>, edgePath: seq<Tag>)

  datatype Item = Item(id: Id, meta: Meta)

  /** A chain id, numbered in the order in which the program's strings compare. */
  datatype Chain = Chain(place: int)

  datatype Freshness = NotStated | Fresh | Stale | Suspect | Contested

  datatype Lifecycle = Unknown | Active | Archived | Contested

  datatype Kind = ArchiveChunk | Incident | Journal | Decision | Procedure | OtherKind

  /** What no step of the assembly changes. `place` is where the folded title, then the id,
      stands in string order. The last four say what the text shows: content worth reusing,
      and words of failure, success and diagnosis. */
  datatype Facts = Facts(kind: Kind, chain: Option<Chain>, freshness: Freshness, lifecycle: Lifecycle, place: int,
                         substantial: bool, failureWords: bool, successWords: bool, diagnosisWords: bool)

  // ------------------------------------------------------------------ merging

  function SmallestRank(target: Option<int>, source: Option<int>): Option<int> {
    if target.None? || (source.Some? && source.value < target.value) then source else target
  }

  function MergeMeta(target: Meta, source: Meta): Meta {
    Meta(DedupeOrdered(target.channels + source.channels),
         DedupeOrdered(target.relations + source.relations),
         DedupeOrdered(target.provenance + source.provenance),
         SmallestRank(target.rank, source.rank),
         if source.score > target.score then source.score else target.score,
         FirstPresent(target.traceSource, source.traceSource),
         FirstPresent(target.traceDepth, source.traceDepth),
         DedupeOrdered(target.edgePath + source.edgePath))
  }

  /** The metadata gathered for every id: the first occurrence, merged with the later ones. */
  function Gathered(items: seq<Item>): map<Id, Meta> {
    if items == [] then map[]
    else
      var before, last := Gathered(items[..|items| - 1]), items[|items| - 1];
      before[last.id := if last.id in before then MergeMeta(before[last.id], last.meta) else last.meta]
  }

  // ------------------------------------------------------------------ objects

  class RuntimeMemory {
    const id: Id
    const facts: Facts
    var channels: seq<Tag>
    var relations: seq<Relation>
    var provenance: seq<Tag>
    var rank: Option<int>
    var score: real
    var traceSource: Option<Tag>
    var traceDepth: Option<nat>
    var edgePath: seq<Tag>
    var role: Option<Role>
    var order: Option<int>
    var branch: Option<nat>

    function Data(): Meta
      reads this
    {
      Meta(channels, relations, provenance, rank, score, traceSource, traceDepth, edgePath)
    }

    constructor (id: Id, facts: Facts, meta: Meta)
      ensures this.id == id && this.facts == facts && Data() == meta && role == None && order == None && branch == None
    {
      this.id, this.facts := id, facts;
      channels, relations, provenance := meta.channels, meta.relations, meta.provenance;
      rank, score := meta.rank, meta.score;
      traceSource, traceDepth, edgePath := meta.traceSource, meta.traceDepth, meta.edgePath;
      role, order, branch := None, None, None;
    }

    function Value(): Item
      reads this
    {
      Item(id, Data())
    }

    /** Takes over what a later memory of the same id brings. */
    method Merge(source: RuntimeMemory)
      requires source != this
      modifies `channels, `relations, `provenance, `rank, `score, `traceSource, `traceDepth, `edgePath
      ensures Data() == MergeMeta(old(Data()), source.Data())
    {
      MergeLists(source);
      if rank.None? || (source.rank.Some? && source.rank.value < rank.value) {
        rank := source.rank;
      }
      if source.score > score {
        score := source.score;
      }
      if traceSource.None? {
        traceSource := source.traceSource;
      }
      if traceDepth.None? {
        traceDepth := source.traceDepth;
      }
    }

    method MergeLists(source: RuntimeMemory)
      requires source != this
      modifies `channels, `relations, `provenance, `edgePath
      ensures channels == DedupeOrdered(old(channels) + source.channels)
      ensures relations == DedupeOrdered(old(relations) + source.relations)
      ensures provenance == DedupeOrdered(old(provenance) + source.provenance)
      ensures edgePath == DedupeOrdered(old(edgePath) + source.edgePath)
    {
      channels := AppendNewLoop([], channels + source.channels);
      relations := AppendNewLoop([], relations + source.relations);
      provenance := AppendNewLoop([], provenance + source.provenance);
      edgePath := AppendNewLoop([], edgePath + source.edgePath);
    }
  }

  /** No memory of the set has changed its branch. */
  twostate predicate SameBranches(ms: set<RuntimeMemory>)
    reads ms
  {
    forall m :: m in ms ==> m.branch == old(m.branch)
  }

  ghost function Values(ms: seq<RuntimeMemory>): (r: seq<Item>)
    reads ms
    ensures |r| == |ms| && forall i :: 0 <= i < |ms| ==> r[i] == ms[i].Value()
  {
    if ms == [] then [] else Values(ms[..|ms| - 1]) + [ms[|ms| - 1].Value()]
  }

  function IdsOf(ms: seq<RuntimeMemory>): set<Id> {
    set i | 0 <= i < |ms| :: ms[i].id
  }

  /** The members of a slot whose id is new to the packet, each id once. */
  function Survivors(ms: seq<RuntimeMemory>, seen: set<Id>): seq<RuntimeMemory> {
    if ms == [] then []
    else
      var front, last := ms[..|ms| - 1], ms[|ms| - 1];
      Survivors(front, seen) + if last.id in seen + IdsOf(front) then [] else [last]
  }

  /** The ids met again after their first occurrence, in the order they are met. */
  function Repeats(ms: seq<RuntimeMemory>, seen: set<Id>): seq<Id> {
    if ms == [] then []
    else
      var front, last := ms[..|ms| - 1], ms[|ms| - 1];
      Repeats(front, seen) + if last.id in seen + IdsOf(front) then [last.id] else []
  }

  function Flat<T>(slots: seq<seq<T>>): seq<T> {
    if slots == [] then [] else Flat(slots[..|slots| - 1]) + slots[|slots| - 1]
  }

  // --------------------------------------------------------------- deduplication

  /** `selected` holds, for every id seen so far, its first object, which has taken over
      the metadata of the later ones. */
  ghost predicate Tracks(selected: map<Id, RuntimeMemory>, seen: seq<Item>)
    reads selected.Values
  {
    && selected.Keys == Gathered(seen).Keys
    && forall id :: id in selected ==> selected[id].Value() == Item(id, Gathered(seen)[id])
  }

  /** One memory is absorbed by the survivor of its id, or becomes it. */
  method DedupeOne(memory: RuntimeMemory, selected0: map<Id, RuntimeMemory>, ghost seen: seq<Item>)
      returns (selected: map<Id, RuntimeMemory>)
    requires Tracks(selected0, seen) && memory !in selected0.Values
    modifies selected0.Values
    ensures Tracks(selected, seen + [old(memory.Value())]) && SameBranches(selected0.Values)
    ensures selected == if memory.id in selected0 then selected0 else selected0[memory.id := memory]
  {
    selected := selected0;
    ghost var now := seen + [memory.Value()];
    assert now[..|now| - 1] == seen;
    if memory.id in selected {
      assert forall id :: id in selected && id != memory.id ==> selected[id] != selected[memory.id];
      selected[memory.id].Merge(memory);
    } else {
      selected := selected[memory.id := memory];
    }
  }

  datatype Pass = Pass(kept: seq<RuntimeMemory>, selected: map<Id, RuntimeMemory>, dropped: seq<Id>)

  function Advance(pass: Pass, m: RuntimeMemory): Pass {
    if m.id in pass.selected then pass.(dropped := pass.dropped + [m.id])
    else Pass(pass.kept + [m], pass.selected[m.id := m], pass.dropped)
  }

  function PassOver(selected: map<Id, RuntimeMemory>, ms: seq<RuntimeMemory>): Pass {
    if ms == [] then Pass([], selected, []) else Advance(PassOver(selected, ms[..|ms| - 1]), ms[|ms| - 1])
  }

  ghost predicate Registered(selected: map<Id, RuntimeMemory>, kept: seq<RuntimeMemory>) {
    forall i :: 0 <= i < |kept| ==> kept[i].id in selected && selected[kept[i].id] == kept[i]
  }

  ghost predicate Extends(selected: map<Id, RuntimeMemory>, selected0: map<Id, RuntimeMemory>) {
    forall id :: id in selected0 ==> id in selected && selected[id] == selected0[id]
  }

  lemma {:induction false} PassOverFacts(selected: map<Id, RuntimeMemory>, ms: seq<RuntimeMemory>)
    ensures var pass := PassOver(selected, ms);
            && pass.selected.Keys == selected.Keys + IdsOf(ms)
            && pass.kept == Survivors(ms, selected.Keys) && pass.dropped == Repeats(ms, selected.Keys)
            && Registered(pass.selected, pass.kept) && Extends(pass.selected, selected)
    ensures forall m :: m in PassOver(selected, ms).selected.Values ==> m in selected.Values || m in ms
  {
    if ms != [] {
      var front, last := ms[..|ms| - 1], ms[|ms| - 1];
      PassOverFacts(selected, front);
      assert IdsOf(ms) == IdsOf(front) + {last.id};
    }
  }

  ghost predicate Apart(slot: seq<RuntimeMemory>, selected: map<Id, RuntimeMemory>) {
    forall i :: 0 <= i < |slot| ==> slot[i] !in selected.Values
  }

  ghost predicate Untouched(slot: seq<RuntimeMemory>, before: seq<Item>, i: nat)
    requires |before| == |slot|
    reads slot
  {
    forall j :: i <= j < |slot| ==> slot[j].Value() == before[j]
  }

  method DedupeSlot(slot: seq<RuntimeMemory>, selected0: map<Id, RuntimeMemory>, ghost seen: seq<Item>)
      returns (kept: seq<RuntimeMemory>, selected: map<Id, RuntimeMemory>, dropped: seq<Id>)
    requires NoRepeats(slot) && Apart(slot, selected0) && Tracks(selected0, seen)
    modifies selected0.Values, slot
    ensures Tracks(selected, seen + old(Values(slot))) && SameBranches(selected0.Values + (set m | m in slot))
    ensures Pass(kept, selected, dropped) == PassOver(selected0, slot)
  {
    kept, selected, dropped := [], selected0, [];
    ghost var before := Values(slot);
    assert seen + before[..0] == seen;
    for i := 0 to |slot|
      invariant Tracks(selected, seen + before[..i]) && Untouched(slot, before, i)
      invariant SameBranches(selected0.Values + (set m | m in slot))
      invariant Pass(kept, selected, dropped) == PassOver(selected0, slot[..i])
    {
      var memory := slot[i];
      OneMore(slot, i, selected0, seen, before);
      StillApart(slot, i, selected0);
      if memory.id in selected {
        dropped := dropped + [memory.id];
      } else {
        kept := kept + [memory];
      }
      selected := DedupeOne(memory, selected, seen + before[..i]);
    }
    assert before[..|slot|] == before && slot[..|slot|] == slot;
  }

  lemma OneMore(slot: seq<RuntimeMemory>, i: nat, selected: map<Id, RuntimeMemory>, seen: seq<Item>, before: seq<Item>)
    requires i < |slot| == |before|
    ensures PassOver(selected, slot[..i + 1]) == Advance(PassOver(selected, slot[..i]), slot[i])
    ensures seen + before[..i + 1] == seen + before[..i] + [before[i]]
  {
    assert slot[..i + 1][..i] == slot[..i];
  }

  lemma StillApart(slot: seq<RuntimeMemory>, i: nat, selected: map<Id, RuntimeMemory>)
    requires i < |slot| && NoRepeats(slot) && Apart(slot, selected)
    ensures forall j :: i <= j < |slot| ==> slot[j] !in PassOver(selected, slot[..i]).selected.Values
    ensures forall m :: m in PassOver(selected, slot[..i]).selected.Values ==> m in selected.Values || m in slot
  {
    PassOverFacts(selected, slot[..i]);
  }

  lemma {:induction false} PassOverConcat(selected: map<Id, RuntimeMemory>, a: seq<RuntimeMemory>,
                                          b: seq<RuntimeMemory>)
    ensures var p := PassOver(selected, a);
            var q := PassOver(p.selected, b);
            PassOver(selected, a + b) == Pass(p.kept + q.kept, q.selected, p.dropped + q.dropped)
  {
    var p := PassOver(selected, a);
    if b == [] {
      assert a + b == a && p.kept + [] == p.kept && p.dropped + [] == p.dropped;
    } else {
      var front, last := b[..|b| - 1], b[|b| - 1];
      PassOverConcat(selected, a, front);
      assert (a + b)[..|a + b| - 1] == a + front && (a + b)[|a + b| - 1] == last;
      var q := PassOver(p.selected, front);
      assert p.kept + (q.kept + [last]) == p.kept + q.kept + [last];
      assert p.dropped + (q.dropped + [last.id]) == p.dropped + q.dropped + [last.id];
    }
  }

  // ------------------------------------------------------------------ the packet

  lemma {:induction false} FlatMembers<T>(slots: seq<seq<T>>)
    ensures forall x :: x in Flat(slots) ==> exists k :: 0 <= k < |slots| && x in slots[k]
    ensures forall k, x :: 0 <= k < |slots| && x in slots[k] ==> x in Flat(slots)
  {
    if slots != [] {
      var front := slots[..|slots| - 1];
      FlatMembers(front);
      forall k, x | 0 <= k < |slots| && x in slots[k]
        ensures x in Flat(slots)
      {
        if k < |front| {
          assert front[k] == slots[k];
        }
      }
    }
  }

  function Objects(slots: seq<seq<RuntimeMemory>>): set<RuntimeMemory> {
    set k, i | 0 <= k < |slots| && 0 <= i < |slots[k]| :: slots[k][i]
  }

  ghost predicate Distinct(slots: seq<seq<RuntimeMemory>>) {
    && (forall k :: 0 <= k < |slots| ==> NoRepeats(slots[k]))
    && forall j, k, m :: 0 <= j < k < |slots| && m in slots[j] ==> m !in slots[k]
  }

  ghost function SlotValues(slots: seq<seq<RuntimeMemory>>): (r: seq<seq<Item>>)
    reads Objects(slots)
    ensures |r| == |slots| && forall k :: 0 <= k < |slots| ==> r[k] == Values(slots[k])
  {
    if slots == [] then []
    else
      var front := slots[..|slots| - 1];
      assert Objects(front) <= Objects(slots);
      SlotValues(front) + [Values(slots[|slots| - 1])]
  }

  /** Slot by slot, the memories whose id occurs in no earlier slot or place. */
  ghost predicate IsDeduped(slots: seq<seq<RuntimeMemory>>, kept: seq<seq<RuntimeMemory>>) {
    |kept| == |slots| && forall k :: 0 <= k < |slots| ==> kept[k] == Survivors(slots[k], IdsOf(Flat(slots[..k])))
  }

  /** Every survivor carries what all memories of its id brought. */
  ghost predicate CarriesAll(kept: seq<RuntimeMemory>, items: seq<Item>)
    reads kept
  {
    forall i :: 0 <= i < |kept| ==> kept[i].id in Gathered(items) && kept[i].Data() == Gathered(items)[kept[i].id]
  }

  lemma OneMoreSlot(slots: seq<seq<RuntimeMemory>>, kept: seq<seq<RuntimeMemory>>, k: nat, pass: Pass)
    requires k < |slots| && |kept| == k && IsDeduped(slots[..k], kept)
    requires pass == PassOver(map[], Flat(slots[..k])) && pass.kept == Flat(kept)
    ensures var q := PassOver(pass.selected, slots[k]);
            && Pass(Flat(kept + [q.kept]), q.selected, pass.dropped + q.dropped) ==
               PassOver(map[], Flat(slots[..k + 1]))
            && IsDeduped(slots[..k + 1], kept + [q.kept])
  {
    var q := PassOver(pass.selected, slots[k]);
    assert slots[..k + 1][..k] == slots[..k];
    assert (kept + [q.kept])[..k] == kept;
    PassOverConcat(map[], Flat(slots[..k]), slots[k]);
    PassOverFacts(map[], Flat(slots[..k]));
    PassOverFacts(pass.selected, slots[k]);
    assert pass.selected.Keys == IdsOf(Flat(slots[..k]));
    forall j | 0 <= j < k + 1
      ensures (kept + [q.kept])[j] == Survivors(slots[..k + 1][j], IdsOf(Flat(slots[..k + 1][..j])))
    {
      assert slots[..k + 1][..j] == slots[..j];
      if j < k {
        assert slots[..k][..j] == slots[..j];
      }
    }
  }

  /** No object of a later slot has been seen, so none of them changes. */
  lemma LaterSlotsApart(slots: seq<seq<RuntimeMemory>>, k: nat, j: nat, i: nat)
    requires k <= j < |slots| && Distinct(slots) && i < |slots[j]|
    ensures slots[j][i] !in PassOver(map[], Flat(slots[..k])).selected.Values
    ensures k < j ==> slots[j][i] !in slots[k]
  {
    assert slots[j][i] in slots[j];
    SeenEarlier(slots, k);
  }

  lemma SeenEarlier(slots: seq<seq<RuntimeMemory>>, k: nat)
    requires k <= |slots|
    ensures forall m :: m in PassOver(map[], Flat(slots[..k])).selected.Values ==>
            exists e :: 0 <= e < k && m in slots[e]
  {
    PassOverFacts(map[], Flat(slots[..k]));
    FlatMembers(slots[..k]);
    assert forall e :: 0 <= e < k ==> slots[..k][e] == slots[e];
  }

  lemma OnlyItsObjects(slots: seq<seq<RuntimeMemory>>, k: nat)
    requires k <= |slots|
    ensures PassOver(map[], Flat(slots[..k])).selected.Values <= Objects(slots)
  {
    PassOverFacts(map[], Flat(slots[..k]));
    FlatMembers(slots[..k]);
  }

  method DedupeNext(slots: seq<seq<RuntimeMemory>>, k: nat, selected0: map<Id, RuntimeMemory>,
                    ghost olds: seq<seq<Item>>)
      returns (kept: seq<RuntimeMemory>, selected: map<Id, RuntimeMemory>, dropped: seq<Id>)
    requires Distinct(slots) && k < |slots| && SlotsUntouched(slots, olds, k)
    requires selected0 == PassOver(map[], Flat(slots[..k])).selected && Tracks(selected0, Flat(olds[..k]))
    modifies Objects(slots)
    ensures Tracks(selected, Flat(olds[..k + 1])) && SlotsUntouched(slots, olds, k + 1) && SameBranches(Objects(slots))
    ensures Pass(kept, selected, dropped) == PassOver(selected0, slots[k])
  {
    OnlyItsObjects(slots, k);
    forall j, i | k <= j < |slots| && 0 <= i < |slots[j]|
      ensures slots[j][i] !in selected0.Values && (k < j ==> slots[j][i] !in slots[k])
    {
      LaterSlotsApart(slots, k, j, i);
    }
    StillThere(slots, olds, k);
    assert olds[..k + 1][..k] == olds[..k];
    kept, selected, dropped := DedupeSlot(slots[k], selected0, Flat(olds[..k]));
  }

  method DedupeSlots(slots: seq<seq<RuntimeMemory>>) returns (kept: seq<seq<RuntimeMemory>>, dropped: seq<Id>)
    requires Distinct(slots)
    modifies Objects(slots)
    ensures IsDeduped(slots, kept) && dropped == Repeats(Flat(slots), {})
    ensures CarriesAll(Flat(kept), old(Flat(SlotValues(slots)))) && SameBranches(Objects(slots))
  {
    var selected: map<Id, RuntimeMemory> := map[];
    assert selected.Keys == {};
    kept, dropped := [], [];
    ghost var olds := SlotValues(slots);
    for k := 0 to |slots|
      invariant |kept| == k && IsDeduped(slots[..k], kept)
      invariant Pass(Flat(kept), selected, dropped) == PassOver(map[], Flat(slots[..k]))
      invariant Tracks(selected, Flat(olds[..k])) && SlotsUntouched(slots, olds, k) && SameBranches(Objects(slots))
    {
      OneMoreSlot(slots, kept, k, Pass(Flat(kept), selected, dropped));
      var out, sel, gone := DedupeNext(slots, k, selected, olds);
      selected, kept, dropped := sel, kept + [out], dropped + gone;
    }
    assert slots[..|slots|] == slots && olds[..|slots|] == olds;
    PassOverFacts(map[], Flat(slots));
    SurvivorsCarryAll(selected, Flat(kept), Flat(olds));
  }

  ghost predicate SlotsUntouched(slots: seq<seq<RuntimeMemory>>, olds: seq<seq<Item>>, k: nat)
    reads Objects(slots)
  {
    |olds| == |slots| && forall j :: k <= j < |slots| ==> |olds[j]| == |slots[j]| && Untouched(slots[j], olds[j], 0)
  }

  lemma StillThere(slots: seq<seq<RuntimeMemory>>, olds: seq<seq<Item>>, k: nat)
    requires k < |slots| && SlotsUntouched(slots, olds, k)
    ensures Values(slots[k]) == olds[k]
  {
  }

  lemma SurvivorsCarryAll(selected: map<Id, RuntimeMemory>, kept: seq<RuntimeMemory>, items: seq<Item>)
    requires Tracks(selected, items) && Registered(selected, kept)
    ensures CarriesAll(kept, items)
  {
    forall i | 0 <= i < |kept|
      ensures kept[i].id in Gathered(items) && kept[i].Data() == Gathered(items)[kept[i].id]
    {
      assert selected[kept[i].id].Value() == Item(kept[i].id, Gathered(items)[kept[i].id]);
    }
  }

  lemma DedupedDistinct(slots: seq<seq<RuntimeMemory>>, kept: seq<seq<RuntimeMemory>>)
    requires Distinct(slots) && IsDeduped(slots, kept)
    ensures Distinct(kept)
  {
    forall k | 0 <= k < |slots|
      ensures NoRepeats(kept[k]) && forall m :: m in kept[k] ==> m in slots[k]
    {
      SurvivorsFacts(slots[k], IdsOf(Flat(slots[..k])));
    }
  }

  class MemoryPacket {
    var slots: seq<seq<RuntimeMemory>>

    /** Six slots, and no object twice. */
    ghost predicate Valid()
      reads this
    {
      |slots| == SLOTS && Distinct(slots)
    }

    ghost function Items(): seq<Item>
      reads this, Objects(slots)
    {
      Flat(SlotValues(slots))
    }

    constructor (slots: seq<seq<RuntimeMemory>>)
      requires |slots| == SLOTS && Distinct(slots)
      ensures Valid() && this.slots == slots
    {
      this.slots := slots;
    }

    method Dedupe() returns (dropped: seq<Id>)
      requires Valid()
      modifies this, Objects(slots)
      ensures Valid() && IsDeduped(old(slots), slots)
      ensures CarriesAll(Flat(slots), old(Items())) && SameBranches(old(Objects(slots)))
      ensures dropped == DedupeOrdered(Repeats(old(Flat(slots)), {}))
    {
      var kept, again := DedupeSlots(slots);
      DedupedDistinct(slots, kept);
      slots := kept;
      dropped := DedupeOrdered(again);
    }
  }

  // ------------------------------------------------------- what deduplication leaves

  ghost predicate DistinctIds(ms: seq<RuntimeMemory>) {
    forall i, j :: 0 <= i < j < |ms| ==> ms[i].id != ms[j].id
  }

  lemma IdsOfAppend(ms: seq<RuntimeMemory>, m: RuntimeMemory)
    ensures IdsOf(ms + [m]) == IdsOf(ms) + {m.id}
  {
    IdsOfConcat(ms, [m]);
    assert [m][0].id in IdsOf([m]);
  }

  lemma {:induction false} SurvivorsFacts(ms: seq<RuntimeMemory>, seen: set<Id>)
    ensures DistinctIds(Survivors(ms, seen))
    ensures IdsOf(Survivors(ms, seen)) == IdsOf(ms) - seen
    ensures forall m :: m in Survivors(ms, seen) ==> m in ms
  {
    if ms != [] {
      var front, last := ms[..|ms| - 1], ms[|ms| - 1];
      SurvivorsFacts(front, seen);
      IdsOfAppend(front, last);
      assert front + [last] == ms;
      var before := Survivors(front, seen);
      if last.id in seen + IdsOf(front) {
        assert Survivors(ms, seen) == before + [] == before;
        assert IdsOf(ms) - seen == IdsOf(front) - seen;
      } else {
        assert Survivors(ms, seen) == before + [last];
      }
      IdsOfAppend(before, last);
      assert forall i :: 0 <= i < |Survivors(front, seen)| ==>
             Survivors(front, seen)[i].id in IdsOf(Survivors(front, seen));
    }
  }

  lemma {:induction false} SurvivorsConcat(a: seq<RuntimeMemory>, b: seq<RuntimeMemory>, seen: set<Id>)
    ensures Survivors(a + b, seen) == Survivors(a, seen) + Survivors(b, seen + IdsOf(a))
  {
    if b == [] {
      assert a + b == a;
    } else {
      var front, last := b[..|b| - 1], b[|b| - 1];
      SurvivorsConcat(a, front, seen);
      assert (a + b)[..|a + b| - 1] == a + front;
      IdsOfConcat(a, front);
    }
  }

  lemma IdsOfConcat(a: seq<RuntimeMemory>, b: seq<RuntimeMemory>)
    ensures IdsOf(a + b) == IdsOf(a) + IdsOf(b)
  {
    forall id | id in IdsOf(b)
      ensures id in IdsOf(a + b)
    {
      var i :| 0 <= i < |b| && b[i].id == id;
      assert (a + b)[|a| + i].id == id;
    }
    forall id | id in IdsOf(a)
      ensures id in IdsOf(a + b)
    {
      var i :| 0 <= i < |a| && a[i].id == id;
      assert (a + b)[i].id == id;
    }
  }

  /** The deduplicated slots in order are the survivors of all the slots in order. */
  lemma {:induction false} DedupedFlat(slots: seq<seq<RuntimeMemory>>, kept: seq<seq<RuntimeMemory>>)
    requires IsDeduped(slots, kept)
    ensures Flat(kept) == Survivors(Flat(slots), {})
    decreases |slots|
  {
    if slots != [] {
      var front := slots[..|slots| - 1];
      forall k | 0 <= k < |front|
        ensures kept[..|kept| - 1][k] == Survivors(front[k], IdsOf(Flat(front[..k])))
      {
        assert front[..k] == slots[..k];
      }
      DedupedFlat(front, kept[..|kept| - 1]);
      SurvivorsConcat(Flat(front), slots[|slots| - 1], {});
      assert {} + IdsOf(Flat(front)) == IdsOf(Flat(front));
    }
  }

  /** After deduplication the ids are pairwise distinct over all six slots, none is lost,
      and each stands in the earliest slot that held it. */
  lemma DedupedIds(slots: seq<seq<RuntimeMemory>>, kept: seq<seq<RuntimeMemory>>)
    requires IsDeduped(slots, kept)
    ensures DistinctIds(Flat(kept)) && IdsOf(Flat(kept)) == IdsOf(Flat(slots))
    ensures forall k :: 0 <= k < |slots| ==> IdsOf(kept[k]) == IdsOf(slots[k]) - IdsOf(Flat(slots[..k]))
  {
    DedupedFlat(slots, kept);
    SurvivorsFacts(Flat(slots), {});
    forall k | 0 <= k < |slots|
      ensures IdsOf(kept[k]) == IdsOf(slots[k]) - IdsOf(Flat(slots[..k]))
    {
      SurvivorsFacts(slots[k], IdsOf(Flat(slots[..k])));
    }
  }

  /** The object that survives for an id is the first one met. */
  lemma {:induction false} SurvivorIsFirst(ms: seq<RuntimeMemory>, seen: set<Id>, i: nat)
    requires NoRepeats(ms) && i < |ms|
    ensures ms[i] in Survivors(ms, seen) <==> ms[i].id !in seen + IdsOf(ms[..i])
  {
    var front, last := ms[..|ms| - 1], ms[|ms| - 1];
    SurvivorsFacts(front, seen);
    if i < |front| {
      SurvivorIsFirst(front, seen, i);
      assert front[..i] == ms[..i] && front[i] != last;
    } else {
      assert last !in front;
    }
  }

  /** The reported ids are those met a second time. */
  lemma {:induction false} RepeatsAre(ms: seq<RuntimeMemory>, seen: set<Id>, id: Id)
    ensures id in Repeats(ms, seen) <==> exists i :: 0 <= i < |ms| && ms[i].id == id && id in seen + IdsOf(ms[..i])
  {
    if ms != [] {
      var front, last := ms[..|ms| - 1], ms[|ms| - 1];
      RepeatsAre(front, seen, id);
      forall i | 0 <= i < |front|
        ensures front[..i] == ms[..i] && front[i] == ms[i]
      {
      }
    }
  }

  // --------------------------------------------------------------- merged metadata

  /** What the memories of one id bring, in packet order. */
  function Occurrences(items: seq<Item>, id: Id): seq<Meta> {
    if items == [] then []
    else
      var last := items[|items| - 1];
      Occurrences(items[..|items| - 1], id) + if last.id == id then [last.meta] else []
  }

  function MergeAll(metas: seq<Meta>): Meta
    requires metas != []
  {
    if |metas| == 1 then metas[0] else MergeMeta(MergeAll(metas[..|metas| - 1]), metas[|metas| - 1])
  }

  /** So a survivor carries everything that the memories of its id brought, merged in packet
      order. */
  lemma CarriedIsMerged(kept: seq<RuntimeMemory>, items: seq<Item>, i: nat)
    requires CarriesAll(kept, items) && i < |kept|
    ensures Occurrences(items, kept[i].id) != []
    ensures kept[i].Data() == MergeAll(Occurrences(items, kept[i].id))
  {
    GatheredIsMerged(items, kept[i].id);
  }

  lemma {:induction false} GatheredIsMerged(items: seq<Item>, id: Id)
    ensures id in Gathered(items) <==> Occurrences(items, id) != []
    ensures id in Gathered(items) ==> Gathered(items)[id] == MergeAll(Occurrences(items, id))
  {
    if items != [] {
      var front, last := items[..|items| - 1], items[|items| - 1];
      GatheredIsMerged(front, id);
      if last.id == id {
        var all, before := Occurrences(items, id), Occurrences(front, id);
        assert all == before + [last.meta] && all[..|all| - 1] == before;
        if before == [] {
          assert Gathered(items)[id] == last.meta == MergeAll(all);
        } else {
          assert Gathered(items)[id] == MergeMeta(Gathered(front)[id], last.meta);
          assert MergeAll(all) == MergeMeta(MergeAll(before), last.meta);
        }
      } else {
        assert Occurrences(items, id) == Occurrences(front, id) + [] == Occurrences(front, id);
      }
    }
  }

  function AllChannels(metas: seq<Meta>): seq<Tag> {
    if metas == [] then [] else AllChannels(metas[..|metas| - 1]) + metas[|metas| - 1].channels
  }

  function AllRelations(metas: seq<Meta>): seq<Relation> {
    if metas == [] then [] else AllRelations(metas[..|metas| - 1]) + metas[|metas| - 1].relations
  }

  function AllProvenance(metas: seq<Meta>): seq<Tag> {
    if metas == [] then [] else AllProvenance(metas[..|metas| - 1]) + metas[|metas| - 1].provenance
  }

  function AllEdgePaths(metas: seq<Meta>): seq<Tag> {
    if metas == [] then [] else AllEdgePaths(metas[..|metas| - 1]) + metas[|metas| - 1].edgePath
  }

  /** Removing duplicates early makes no difference. */
  lemma DedupeAbsorbs<T>(xs: seq<T>, ys: seq<T>)
    ensures DedupeOrdered(DedupeOrdered(xs) + ys) == DedupeOrdered(xs + ys)
  {
    AppendNewConcat([], DedupeOrdered(xs), ys);
    AppendNewAssociative([], [], xs);
    AppendNewConcat([], xs, ys);
  }

  lemma ListsOfOne(meta: Meta)
    ensures AllChannels([meta]) == meta.channels && AllRelations([meta]) == meta.relations
    ensures AllProvenance([meta]) == meta.provenance && AllEdgePaths([meta]) == meta.edgePath
  {
    var metas := [meta];
    assert metas[..|metas| - 1] == [];
  }

  /** Two or more memories of one id: the survivor has the ordered unions of what they all
      brought, each value once. */
  lemma {:induction false} MergedLists(metas: seq<Meta>)
    requires |metas| >= 2
    ensures MergeAll(metas).channels == DedupeOrdered(AllChannels(metas))
    ensures MergeAll(metas).relations == DedupeOrdered(AllRelations(metas))
    ensures MergeAll(metas).provenance == DedupeOrdered(AllProvenance(metas))
    ensures MergeAll(metas).edgePath == DedupeOrdered(AllEdgePaths(metas))
  {
    var front, last := metas[..|metas| - 1], metas[|metas| - 1];
    if |metas| == 2 {
      assert front == [metas[0]];
      ListsOfOne(metas[0]);
    } else {
      MergedLists(front);
      DedupeAbsorbs(AllChannels(front), last.channels);
      DedupeAbsorbs(AllRelations(front), last.relations);
      DedupeAbsorbs(AllProvenance(front), last.provenance);
      DedupeAbsorbs(AllEdgePaths(front), last.edgePath);
    }
  }

  ghost predicate IsSmallestRank(rank: Option<int>, metas: seq<Meta>) {
    if rank.None? then forall i :: 0 <= i < |metas| ==> metas[i].rank.None?
    else
      && (forall i :: 0 <= i < |metas| && metas[i].rank.Some? ==> rank.value <= metas[i].rank.value)
      && exists i :: 0 <= i < |metas| && metas[i].rank == rank
  }

  ghost predicate IsLargestScore(score: real, metas: seq<Meta>) {
    && (forall i :: 0 <= i < |metas| ==> metas[i].score <= score)
    && exists i :: 0 <= i < |metas| && metas[i].score == score
  }

  /** The smallest rank present and the largest score. */
  lemma {:induction false} MergedNumbers(metas: seq<Meta>)
    requires metas != []
    ensures IsSmallestRank(MergeAll(metas).rank, metas) && IsLargestScore(MergeAll(metas).score, metas)
  {
    if |metas| > 1 {
      var front, last := metas[..|metas| - 1], metas[|metas| - 1];
      MergedNumbers(front);
      assert forall i :: 0 <= i < |front| ==> front[i] == metas[i];
      assert metas[|metas| - 1] == last;
    } else {
      assert metas[0].rank == MergeAll(metas).rank && metas[0].score == MergeAll(metas).score;
    }
  }

  ghost predicate IsFirstPresent<T>(known: Option<T>, all: seq<Option<T>>) {
    if known.None? then forall i :: 0 <= i < |all| ==> all[i].None?
    else exists i :: 0 <= i < |all| && all[i] == known && forall j :: 0 <= j < i ==> all[j].None?
  }

  function Sources(metas: seq<Meta>): (r: seq<Option<Tag>>)
    ensures |r| == |metas| && forall i :: 0 <= i < |metas| ==> r[i] == metas[i].traceSource
  {
    seq(|metas|, i requires 0 <= i < |metas| => metas[i].traceSource)
  }

  function Depths(metas: seq<Meta>): (r: seq<Option<nat>>)
    ensures |r| == |metas| && forall i :: 0 <= i < |metas| ==> r[i] == metas[i].traceDepth
  {
    seq(|metas|, i requires 0 <= i < |metas| => metas[i].traceDepth)
  }

  lemma FirstPresentGrows<T>(known: Option<T>, all: seq<Option<T>>, next: Option<T>)
    requires IsFirstPresent(known, all)
    ensures IsFirstPresent(FirstPresent(known, next), all + [next])
  {
    if known.Some? {
      var i :| 0 <= i < |all| && all[i] == known && forall j :: 0 <= j < i ==> all[j].None?;
      assert (all + [next])[i] == known;
    } else if next.Some? {
      assert (all + [next])[|all|] == next;
    }
  }

  /** The trace source and depth are those of the first memory that has one. */
  lemma {:induction false} MergedTrace(metas: seq<Meta>)
    requires metas != []
    ensures IsFirstPresent(MergeAll(metas).traceSource, Sources(metas))
    ensures IsFirstPresent(MergeAll(metas).traceDepth, Depths(metas))
  {
    if |metas| > 1 {
      var front, last := metas[..|metas| - 1], metas[|metas| - 1];
      MergedTrace(front);
      FirstPresentGrows(MergeAll(front).traceSource, Sources(front), last.traceSource);
      FirstPresentGrows(MergeAll(front).traceDepth, Depths(front), last.traceDepth);
      assert Sources(metas) == Sources(front) + [last.traceSource]
             && Depths(metas) == Depths(front) + [last.traceDepth];
    } else {
      assert Sources(metas)[0] == MergeAll(metas).traceSource && Depths(metas)[0] == MergeAll(metas).traceDepth;
    }
  }

  // ------------------------------------------------------------------- running again

  lemma {:induction false} DistinctSurvive(ms: seq<RuntimeMemory>, seen: set<Id>)
    requires DistinctIds(ms) && IdsOf(ms) !! seen
    ensures Survivors(ms, seen) == ms && Repeats(ms, seen) == []
  {
    if ms != [] {
      var front, last := ms[..|ms| - 1], ms[|ms| - 1];
      assert front + [last] == ms;
      IdsOfAppend(front, last);
      DistinctSurvive(front, seen);
    }
  }

  lemma {:induction false} GatheredKeys(ms: seq<RuntimeMemory>)
    ensures Gathered(Values(ms)).Keys == IdsOf(ms)
  {
    if ms != [] {
      var front, last := ms[..|ms| - 1], ms[|ms| - 1];
      GatheredKeys(front);
      assert Values(ms)[..|ms| - 1] == Values(front) && front + [last] == ms;
      IdsOfAppend(front, last);
    }
  }

  lemma {:induction false} GatheredOfDistinct(ms: seq<RuntimeMemory>, i: nat)
    requires DistinctIds(ms) && i < |ms|
    ensures ms[i].id in Gathered(Values(ms)) && Gathered(Values(ms))[ms[i].id] == ms[i].Data()
  {
    var front, last := ms[..|ms| - 1], ms[|ms| - 1];
    assert Values(ms)[..|ms| - 1] == Values(front);
    GatheredKeys(front);
    if i < |front| {
      GatheredOfDistinct(front, i);
    } else if last.id in IdsOf(front) {
      assert false;
    }
  }

  lemma {:induction false} FlatValues(slots: seq<seq<RuntimeMemory>>)
    ensures Flat(SlotValues(slots)) == Values(Flat(slots))
  {
    if slots != [] {
      var front := slots[..|slots| - 1];
      FlatValues(front);
      assert Values(Flat(slots)) == Values(Flat(front)) + Values(slots[|slots| - 1]);
      assert SlotValues(slots)[..|slots| - 1] == SlotValues(front);
    }
  }

  /** Deduplication is idempotent: on its own result, slots and metadata as they stand are
      already what a second pass leaves, and it reports no id. */
  lemma SecondPassChangesNothing(slots: seq<seq<RuntimeMemory>>, kept: seq<seq<RuntimeMemory>>)
    requires IsDeduped(slots, kept)
    ensures IsDeduped(kept, kept) && CarriesAll(Flat(kept), Flat(SlotValues(kept))) && Repeats(Flat(kept), {}) == []
  {
    DedupedIds(slots, kept);
    DistinctSurvive(Flat(kept), {});
    FlatValues(kept);
    forall i | 0 <= i < |Flat(kept)|
      ensures var all := Flat(kept);
              all[i].id in Gathered(Values(all)) && all[i].Data() == Gathered(Values(all))[all[i].id]
    {
      GatheredOfDistinct(Flat(kept), i);
    }
    forall k | 0 <= k < |kept|
      ensures kept[k] == Survivors(kept[k], IdsOf(Flat(kept[..k])))
    {
      DedupedPrefix(slots, kept, k);
      SurvivorsFacts(slots[k], IdsOf(Flat(slots[..k])));
      DistinctSurvive(kept[k], IdsOf(Flat(kept[..k])));
    }
  }

  lemma DedupedPrefix(slots: seq<seq<RuntimeMemory>>, kept: seq<seq<RuntimeMemory>>, k: nat)
    requires IsDeduped(slots, kept) && k <= |slots|
    ensures IdsOf(Flat(kept[..k])) == IdsOf(Flat(slots[..k]))
  {
    forall j | 0 <= j < k
      ensures kept[..k][j] == Survivors(slots[..k][j], IdsOf(Flat(slots[..k][..j])))
    {
      assert slots[..k][..j] == slots[..j];
    }
    DedupedIds(slots[..k], kept[..k]);
  }
}
