/** Lists used as ordered sets: the program appends a value only if it is not there yet. */
module OrderedLists {
  /** `for y in ys: if y not in xs: xs.append(y)` */
  function AppendNew<T(==)>(xs: seq<T>, ys: seq<T>): seq<T>
    decreases ys
  {
    if ys == [] then xs
    else AppendNew(if ys[0] in xs then xs else xs + [ys[0]], ys[1..])
  }

  /** The values in first-occurrence order, each once. */
  function DedupeOrdered<T(==)>(values: seq<T>): seq<T> {
    AppendNew([], values)
  }

  ghost predicate NoRepeats<T>(xs: seq<T>) {
    forall i, j :: 0 <= i < j < |xs| ==> xs[i] != xs[j]
  }

  lemma {:induction false} AppendNewMembers<T>(xs: seq<T>, ys: seq<T>)
    ensures forall v :: v in AppendNew(xs, ys) <==> v in xs || v in ys
    ensures NoRepeats(xs) ==> NoRepeats(AppendNew(xs, ys))
    ensures xs <= AppendNew(xs, ys)
    decreases ys
  {
    if ys != [] {
      AppendNewMembers(if ys[0] in xs then xs else xs + [ys[0]], ys[1..]);
      assert ys == [ys[0]] + ys[1..];
    }
  }

  lemma {:induction false} AppendNewConcat<T>(xs: seq<T>, ys: seq<T>, zs: seq<T>)
    ensures AppendNew(xs, ys + zs) == AppendNew(AppendNew(xs, ys), zs)
    decreases ys
  {
    if ys == [] {
      assert ys + zs == zs;
    } else {
      assert (ys + zs)[1..] == ys[1..] + zs;
      AppendNewConcat(if ys[0] in xs then xs else xs + [ys[0]], ys[1..], zs);
    }
  }

  lemma {:induction false} AppendNewAssociative<T>(xs: seq<T>, ys: seq<T>, zs: seq<T>)
    ensures AppendNew(xs, AppendNew(ys, zs)) == AppendNew(AppendNew(xs, ys), zs)
    decreases zs
  {
    if zs != [] {
      var z := zs[0];
      AppendNewMembers(xs, ys);
      if z in ys {
        AppendNewAssociative(xs, ys, zs[1..]);
      } else {
        AppendNewAssociative(xs, ys + [z], zs[1..]);
        AppendNewConcat(xs, ys, [z]);
        AppendOne(AppendNew(xs, ys), z);
      }
    }
  }

  lemma AppendOne<T>(xs: seq<T>, z: T)
    ensures AppendNew(xs, [z]) == if z in xs then xs else xs + [z]
  {
    assert [z][1..] == [];
  }

  method AppendNewLoop<T(==)>(xs: seq<T>, ys: seq<T>) returns (r: seq<T>)
    ensures r == AppendNew(xs, ys)
  {
    r := xs;
    for i := 0 to |ys|
      invariant AppendNew(xs, ys) == AppendNew(r, ys[i..])
    {
      assert ys[i..][1..] == ys[i + 1..];
      if ys[i] !in r {
        r := r + [ys[i]];
      }
    }
  }
}
