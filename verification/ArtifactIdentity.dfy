/** Deciding whether an ingested artifact duplicates an archived one.

    Texts come as their normalised tokens. A fingerprint is the text that is hashed, which
    takes SHA-256 to be free of collisions. Reading a candidate's text back from disk is an
    input (`texts`), and an unreadable text is empty. */
module ArtifactIdentity {
  import opened Wrappers
  import opened OrderedLists
  import opened SimHash

  const SHINGLE_SIZE: nat := 5

  type Tokens = seq<string>

  // --------------------------------------------------------------- fingerprints

  /** What the suffix of a file says about how to read it. */
  datatype Format = Format(name: string)

  /** A format, and the beginning of a normalised text. No normalised text holds the bar
      between the two. */
  datatype Fingerprint = Fingerprint(format: Format, covered: string)

  const COVERED_LENGTH: nat := 1000

  /** The normalised text. */
  function Spaced(tokens: Tokens): string {
    if tokens == [] then ""
    else if |tokens| == 1 then tokens[0]
    else tokens[0] + " " + Spaced(tokens[1..])
  }

  function Covered(tokens: Tokens): string {
    var text := Spaced(tokens);
    if |text| <= COVERED_LENGTH then text else text[..COVERED_LENGTH]
  }

  function IdentityFingerprint(format: Format, tokens: Tokens): Fingerprint {
    Fingerprint(format, Covered(tokens))
  }

  /** Two fingerprints agree exactly when the formats do and the normalised texts are the same
      or, being long enough, begin with the same 1000 characters. */
  lemma PrintsAgreeExactlyWhen(f: Format, a: Tokens, g: Format, b: Tokens)
    ensures IdentityFingerprint(f, a) == IdentityFingerprint(g, b) <==>
              f == g && (Spaced(a) == Spaced(b)
                         || (|Spaced(a)| >= 1000 && |Spaced(b)| >= 1000 && Spaced(a)[..1000] == Spaced(b)[..1000]))
  {
    var x, y := Spaced(a), Spaced(b);
    if |x| == 1000 { assert x[..1000] == x; }
    if |y| == 1000 { assert y[..1000] == y; }
  }

  /** What `str.split` makes of a normalised text; `word` is the part of a word read so far. */
  function Words(text: string, word: string): Tokens
    decreases |text|
  {
    if text == "" then Ended(word)
    else if text[0] == ' ' then Ended(word) + Words(text[1..], "")
    else Words(text[1..], word + [text[0]])
  }

  function Ended(word: string): Tokens {
    if word == "" then [] else [word]
  }

  lemma {:induction false} WordRead(w: string, rest: string, word: string)
    requires ' ' !in w
    ensures Words(w + rest, word) == Words(rest, word + w)
    decreases |w|
  {
    if w == "" {
      assert w + rest == rest && word + w == word;
    } else {
      assert (w + rest)[0] == w[0] && w[0] in w;
      assert (w + rest)[1..] == w[1..] + rest;
      WordRead(w[1..], rest, word + [w[0]]);
      assert word + [w[0]] + w[1..] == word + w;
    }
  }

  predicate IsWord(t: string) {
    t != "" && ' ' !in t
  }

  /** Splitting the normalised text gives back its tokens. */
  lemma {:induction false} SpacedSplits(tokens: Tokens)
    requires forall i :: 0 <= i < |tokens| ==> IsWord(tokens[i])
    ensures Words(Spaced(tokens), "") == tokens
  {
    if tokens != [] {
      var t, rest := tokens[0], tokens[1..];
      assert IsWord(t);
      SpacedSplits(rest);
      if rest == [] {
        assert t + "" == t && "" + t == t;
        WordRead(t, "", "");
      } else {
        var tail := " " + Spaced(rest);
        assert Spaced(tokens) == t + tail && tail[1..] == Spaced(rest);
        WordRead(t, tail, "");
        assert "" + t == t;
      }
    }
  }

  /** Texts whose first words begin differently have different fingerprints. */
  lemma FirstLetterShows(format: Format, a: Tokens, b: Tokens)
    requires a != [] && b != [] && a[0] != "" && b[0] != "" && a[0][0] != b[0][0]
    ensures IdentityFingerprint(format, a) != IdentityFingerprint(format, b)
  {
    CoversFirstLetter(a);
    CoversFirstLetter(b);
  }

  lemma CoversFirstLetter(tokens: Tokens)
    requires tokens != [] && tokens[0] != ""
    ensures Covered(tokens) != "" && Covered(tokens)[0] == tokens[0][0]
  {
  }

  // ---------------------------------------------------------------- similarity

  function Windows(tokens: Tokens, n: nat): seq<Shingle>
    requires n + SHINGLE_SIZE <= |tokens| + 1
  {
    if n == 0 then [] else Windows(tokens, n - 1) + [Shingle(tokens[n - 1..n - 1 + SHINGLE_SIZE])]
  }

  /** The shingle set of a text, listed once each. */
  function Shingles(tokens: Tokens): seq<Shingle> {
    if tokens == [] then []
    else if |tokens| < SHINGLE_SIZE then [Shingle(tokens)]
    else DedupeOrdered(Windows(tokens, |tokens| - SHINGLE_SIZE + 1))
  }

  function Jaccard(left: set<Shingle>, right: set<Shingle>): real {
    if left == {} && right == {} then 1.0
    else if left == {} || right == {} then 0.0
    else |left * right| as real / |left + right| as real
  }

  ghost predicate IsCommonPrefix(a: Tokens, b: Tokens, n: nat) {
    n <= |a| && n <= |b| && a[..n] == b[..n] && (n < |a| && n < |b| ==> a[n] != b[n])
  }

  ghost predicate IsCommonSuffix(a: Tokens, b: Tokens, n: nat) {
    n <= |a| && n <= |b| && a[|a| - n..] == b[|b| - n..] && (n < |a| && n < |b| ==> a[|a| - n - 1] != b[|b| - n - 1])
  }

  function Shorter(a: Tokens, b: Tokens): nat {
    if |a| <= |b| then |a| else |b|
  }

  function Ratio(prefix: nat, suffix: nat, shorter: nat): real {
    var longest := if prefix >= suffix then prefix else suffix;
    (if longest <= shorter then longest else shorter) as real / (if shorter >= 1 then shorter else 1) as real
  }

  /** How much of the shorter text is a common beginning or end, and whether that is the
      larger part of texts that differ in length. */
  ghost predicate IsOverlap(a: Tokens, b: Tokens, ratio: real, related: bool) {
    if a == [] || b == [] then ratio == 0.0 && !related
    else exists p, s :: IsCommonPrefix(a, b, p) && IsCommonSuffix(a, b, s)
                        && ratio == Ratio(p, s, Shorter(a, b))
                        && related == (|a| != |b| && ratio >= 0.6)
  }

  method PrefixSuffixOverlap(a: Tokens, b: Tokens) returns (ratio: real, related: bool)
    ensures IsOverlap(a, b, ratio, related)
  {
    if a == [] || b == [] {
      return 0.0, false;
    }
    var p := 0;
    while p < |a| && p < |b| && a[p] == b[p]
      invariant p <= |a| && p <= |b| && a[..p] == b[..p]
    {
      p := p + 1;
    }
    var s := 0;
    while s < |a| && s < |b| && a[|a| - s - 1] == b[|b| - s - 1]
      invariant s <= |a| && s <= |b| && a[|a| - s..] == b[|b| - s..]
    {
      assert a[|a| - s - 1..] == [a[|a| - s - 1]] + a[|a| - s..];
      assert b[|b| - s - 1..] == [b[|b| - s - 1]] + b[|b| - s..];
      s := s + 1;
    }
    ratio := Ratio(p, s, Shorter(a, b));
    related := |a| != |b| && ratio >= 0.6;
    assert IsCommonPrefix(a, b, p) && IsCommonSuffix(a, b, s);
  }

  // ----------------------------------------------------------- the best candidate

  datatype DuplicateState = Unique | ExactDuplicate | CanonicalDuplicate | PossibleDuplicate | OverlapRelated
  datatype Verdict = Verdict(state: DuplicateState, canonical: Option<Id>)

  /** A candidate with its two similarities. */
  datatype Scored = Scored(id: Id, jaccard: real, overlap: real, related: bool)

  predicate OverlapCounts(c: Scored) {
    c.related && c.overlap > c.jaccard
  }

  function Score(c: Scored): real {
    if OverlapCounts(c) then c.overlap else c.jaccard
  }

  /** The first candidate with the highest positive score. */
  ghost predicate IsBest(cs: seq<Scored>, best: Option<Scored>) {
    match best
    case None => forall i :: 0 <= i < |cs| ==> Score(cs[i]) <= 0.0
    case Some(b) => exists k :: 0 <= k < |cs| && cs[k] == b && Score(b) > 0.0
                      && (forall i :: 0 <= i < k ==> Score(cs[i]) < Score(b))
                      && (forall i :: k <= i < |cs| ==> Score(cs[i]) <= Score(b))
  }

  ghost predicate AnyOverlap(cs: seq<Scored>) {
    exists i :: 0 <= i < |cs| && OverlapCounts(cs[i])
  }

  method PickBest(cs: seq<Scored>) returns (best: Option<Scored>, overlapSeen: bool)
    ensures IsBest(cs, best)
    ensures overlapSeen <==> AnyOverlap(cs)
  {
    best, overlapSeen := None, false;
    for i := 0 to |cs|
      invariant IsBest(cs[..i], best)
      invariant overlapSeen <==> AnyOverlap(cs[..i])
    {
      var c := cs[i];
      ghost var before := best;
      if OverlapCounts(c) {
        overlapSeen := true;
      }
      if Score(c) > (if best.Some? then Score(best.value) else 0.0) {
        best := Some(c);
      }
      BestStep(cs, i, before, best);
      OverlapStep(cs, i);
    }
    assert cs[..|cs|] == cs;
  }

  lemma BestStep(cs: seq<Scored>, i: nat, before: Option<Scored>, after: Option<Scored>)
    requires i < |cs| && IsBest(cs[..i], before)
    requires after == if Score(cs[i]) > (if before.Some? then Score(before.value) else 0.0) then Some(cs[i]) else before
    ensures IsBest(cs[..i + 1], after)
  {
    assert cs[..i + 1] == cs[..i] + [cs[i]];
    if Score(cs[i]) > (if before.Some? then Score(before.value) else 0.0) {
      NewBest(cs[..i], before, cs[i]);
    } else if before.Some? {
      OldBest(cs[..i], before.value, cs[i]);
    }
  }

  lemma NewBest(cs: seq<Scored>, before: Option<Scored>, c: Scored)
    requires IsBest(cs, before) && Score(c) > (if before.Some? then Score(before.value) else 0.0)
    ensures IsBest(cs + [c], Some(c))
  {
    assert (cs + [c])[|cs|] == c;
    assert forall j :: 0 <= j < |cs| ==> Score(cs[j]) < Score(c);
  }

  lemma OldBest(cs: seq<Scored>, b: Scored, c: Scored)
    requires IsBest(cs, Some(b)) && Score(c) <= Score(b)
    ensures IsBest(cs + [c], Some(b))
  {
    var k :| 0 <= k < |cs| && cs[k] == b && Score(b) > 0.0
             && (forall j :: 0 <= j < k ==> Score(cs[j]) < Score(b))
             && (forall j :: k <= j < |cs| ==> Score(cs[j]) <= Score(b));
    assert (cs + [c])[k] == b;
  }

  lemma OverlapStep(cs: seq<Scored>, i: nat)
    requires i < |cs|
    ensures AnyOverlap(cs[..i + 1]) <==> AnyOverlap(cs[..i]) || OverlapCounts(cs[i])
  {
    var was, now := cs[..i], cs[..i + 1];
    if AnyOverlap(was) {
      var k :| 0 <= k < i && OverlapCounts(was[k]);
      assert OverlapCounts(now[k]);
    }
    if OverlapCounts(cs[i]) {
      assert OverlapCounts(now[i]);
    }
    if AnyOverlap(now) {
      var k :| 0 <= k < i + 1 && OverlapCounts(now[k]);
      if k < i { assert OverlapCounts(was[k]); }
    }
  }

  function Decide(best: Option<Scored>, overlapSeen: bool): Verdict {
    if best.None? then Verdict(Unique, None)
    else if overlapSeen && Score(best.value) >= 0.60 then Verdict(OverlapRelated, Some(best.value.id))
    else if Score(best.value) >= 0.95 then Verdict(CanonicalDuplicate, Some(best.value.id))
    else if Score(best.value) >= 0.60 then Verdict(PossibleDuplicate, Some(best.value.id))
    else Verdict(Unique, None)
  }

  ghost predicate AnyScores(cs: seq<Scored>, bound: real) {
    exists i :: 0 <= i < |cs| && Score(cs[i]) >= bound
  }

  lemma BestScores(cs: seq<Scored>, best: Option<Scored>, bound: real)
    requires IsBest(cs, best) && bound > 0.0
    ensures AnyScores(cs, bound) <==> best.Some? && Score(best.value) >= bound
  {
  }

  /** Each verdict by the candidates' scores: from 0.6 on any overlap among them decides, else
      0.95 makes a duplicate and 0.6 a possible one. */
  lemma DecidesExactlyWhen(cs: seq<Scored>, best: Option<Scored>)
    requires IsBest(cs, best)
    ensures var state := Decide(best, AnyOverlap(cs)).state;
            && (state == Unique <==> !AnyScores(cs, 0.6))
            && (state == OverlapRelated <==> AnyScores(cs, 0.6) && AnyOverlap(cs))
            && (state == CanonicalDuplicate <==> AnyScores(cs, 0.95) && !AnyOverlap(cs))
            && (state == PossibleDuplicate <==> AnyScores(cs, 0.6) && !AnyScores(cs, 0.95) && !AnyOverlap(cs))
  {
    BestScores(cs, best, 0.6);
    BestScores(cs, best, 0.95);
  }

  /** The overlap flag belongs to the whole candidate list. A near-identical best candidate
      that does not overlap itself is called a duplicate exactly when no candidate at all
      overlaps; otherwise it is called overlap-related. */
  lemma OverlapFlagIsShared(cs: seq<Scored>, best: Scored)
    requires IsBest(cs, Some(best)) && Score(best) >= 0.95 && !OverlapCounts(best)
    ensures Decide(Some(best), AnyOverlap(cs)) ==
            Verdict(if AnyOverlap(cs) then OverlapRelated else CanonicalDuplicate, Some(best.id))
    ensures AnyOverlap(cs) <==> exists i :: 0 <= i < |cs| && cs[i] != best && OverlapCounts(cs[i])
  {
  }

  /** The overlap of two texts is determined. */
  lemma OverlapIsUnique(a: Tokens, b: Tokens, x: real, xRelated: bool, y: real, yRelated: bool)
    requires IsOverlap(a, b, x, xRelated) && IsOverlap(a, b, y, yRelated)
    ensures x == y && xRelated == yRelated
  {
    if a != [] && b != [] {
      var p, s :| IsCommonPrefix(a, b, p) && IsCommonSuffix(a, b, s)
                  && x == Ratio(p, s, Shorter(a, b));
      var q, t :| IsCommonPrefix(a, b, q) && IsCommonSuffix(a, b, t)
                  && y == Ratio(q, t, Shorter(a, b));
      PrefixIsUnique(a, b, p, q);
      SuffixIsUnique(a, b, s, t);
    }
  }

  lemma PrefixIsUnique(a: Tokens, b: Tokens, n: nat, m: nat)
    requires IsCommonPrefix(a, b, n) && IsCommonPrefix(a, b, m)
    ensures n == m
  {
    if n < m { SamePrefix(a, b, m, n); }
    if m < n { SamePrefix(a, b, n, m); }
  }

  lemma SamePrefix(a: Tokens, b: Tokens, n: nat, i: nat)
    requires i < n <= |a| && n <= |b| && a[..n] == b[..n]
    ensures a[i] == b[i]
  {
    assert a[..n][i] == b[..n][i];
  }

  lemma SuffixIsUnique(a: Tokens, b: Tokens, n: nat, m: nat)
    requires IsCommonSuffix(a, b, n) && IsCommonSuffix(a, b, m)
    ensures n == m
  {
    if n < m { SameSuffix(a, b, m, n); }
    if m < n { SameSuffix(a, b, n, m); }
  }

  lemma SameSuffix(a: Tokens, b: Tokens, n: nat, i: nat)
    requires i < n <= |a| && n <= |b| && a[|a| - n..] == b[|b| - n..]
    ensures a[|a| - i - 1] == b[|b| - i - 1]
  {
    assert a[|a| - n..][n - i - 1] == b[|b| - n..][n - i - 1];
  }

  /** The shingles are the runs of five tokens, or the whole of a shorter text, each once. */
  lemma ShinglesAre(tokens: Tokens, w: Shingle)
    ensures w in Shingles(tokens) <==>
              if |tokens| < 5 then tokens != [] && w.tokens == tokens
              else exists k: nat :: RunsAt(tokens, k, w)
    ensures NoRepeats(Shingles(tokens))
  {
    if |tokens| >= SHINGLE_SIZE {
      WindowsOf(tokens, |tokens| - SHINGLE_SIZE + 1, w);
      AppendNewMembers([], Windows(tokens, |tokens| - SHINGLE_SIZE + 1));
    }
  }

  lemma {:induction false} WindowsOf(tokens: Tokens, n: nat, w: Shingle)
    requires n + SHINGLE_SIZE <= |tokens| + 1
    ensures w in Windows(tokens, n) <==> exists k: nat :: k < n && RunsAt(tokens, k, w)
  {
    if n > 0 {
      WindowsOf(tokens, n - 1, w);
      assert w == Shingle(tokens[n - 1..n + 4]) <==> RunsAt(tokens, n - 1, w);
    }
  }

  /** Five tokens in a row. */
  predicate RunsAt(tokens: Tokens, k: nat, w: Shingle) {
    k + 5 <= |tokens| && w.tokens == tokens[k..k + 5]
  }

  // ------------------------------------------------------ what the similarities measure

  predicate EndsWith(b: Tokens, a: Tokens) {
    |a| <= |b| && b[|b| - |a|..] == a
  }

  /** One text begins or ends with the other. */
  predicate Extends(a: Tokens, b: Tokens) {
    a <= b || b <= a || EndsWith(a, b) || EndsWith(b, a)
  }

  /** `ratio` is the longer of the two as a part of `n`. */
  predicate LongerAsPart(ratio: real, n: nat, prefix: nat, suffix: nat) {
    var part := ratio * n as real;
    (part == prefix as real || part == suffix as real) && prefix as real <= part && suffix as real <= part
  }

  lemma RatioTimes(prefix: nat, suffix: nat, shorter: nat)
    requires prefix <= shorter && suffix <= shorter && 1 <= shorter
    ensures LongerAsPart(Ratio(prefix, suffix, shorter), shorter, prefix, suffix)
    ensures 0.0 <= Ratio(prefix, suffix, shorter) <= 1.0
    ensures Ratio(prefix, suffix, shorter) == 1.0 <==> prefix == shorter || suffix == shorter
  {
    var longest := if prefix >= suffix then prefix else suffix;
    QuotientTimes(longest, shorter);
  }

  lemma QuotientTimes(n: nat, d: nat)
    requires n <= d && 1 <= d
    ensures (n as real / d as real) * d as real == n as real
    ensures 0.0 <= n as real / d as real <= 1.0
    ensures n as real / d as real == 1.0 <==> n == d
  {
  }

  lemma OverlapWitness(a: Tokens, b: Tokens, ratio: real, related: bool) returns (p: nat, s: nat)
    requires a != [] && b != [] && IsOverlap(a, b, ratio, related)
    ensures IsCommonPrefix(a, b, p) && IsCommonSuffix(a, b, s)
    ensures p <= Shorter(a, b) && s <= Shorter(a, b) && ratio == Ratio(p, s, Shorter(a, b))
    ensures related <==> |a| != |b| && ratio >= 0.6
  {
    p, s :| IsCommonPrefix(a, b, p) && IsCommonSuffix(a, b, s)
            && ratio == Ratio(p, s, Shorter(a, b)) && related == (|a| != |b| && ratio >= 0.6);
  }

  /** The overlap is the longer of the common beginning and the common end, as a part of the
      shorter text; from 0.6 on it relates texts of different length. */
  lemma OverlapMeasures(a: Tokens, b: Tokens, ratio: real, related: bool, p: nat, s: nat)
    requires a != [] && b != [] && IsOverlap(a, b, ratio, related) && IsCommonPrefix(a, b, p) && IsCommonSuffix(a, b, s)
    ensures LongerAsPart(ratio, Shorter(a, b), p, s)
    ensures 0.0 <= ratio <= 1.0 && (related <==> |a| != |b| && ratio >= 0.6)
  {
    var q, t := OverlapWitness(a, b, ratio, related);
    PrefixIsUnique(a, b, p, q);
    SuffixIsUnique(a, b, s, t);
    RatioTimes(p, s, Shorter(a, b));
  }

  /** It is all of the shorter text exactly when one text begins or ends with the other. */
  lemma FullOverlapExactlyWhen(a: Tokens, b: Tokens, ratio: real, related: bool)
    requires a != [] && b != [] && IsOverlap(a, b, ratio, related)
    ensures ratio == 1.0 <==> Extends(a, b)
    ensures ratio == 1.0 ==> (related <==> |a| != |b|)
  {
    var p, s := OverlapWitness(a, b, ratio, related);
    RatioTimes(p, s, Shorter(a, b));
    FullPrefix(a, b, p);
    FullSuffix(a, b, s);
  }

  lemma FullPrefix(a: Tokens, b: Tokens, p: nat)
    requires IsCommonPrefix(a, b, p)
    ensures p == Shorter(a, b) <==> a <= b || b <= a
  {
    if a <= b || b <= a {
      assert IsCommonPrefix(a, b, Shorter(a, b));
      PrefixIsUnique(a, b, p, Shorter(a, b));
    }
  }

  lemma FullSuffix(a: Tokens, b: Tokens, s: nat)
    requires IsCommonSuffix(a, b, s)
    ensures s == Shorter(a, b) <==> EndsWith(a, b) || EndsWith(b, a)
  {
    if EndsWith(a, b) || EndsWith(b, a) {
      assert IsCommonSuffix(a, b, Shorter(a, b));
      SuffixIsUnique(a, b, s, Shorter(a, b));
    }
  }

  /** The similarity of two shingle sets is a part of one, and all of it exactly for equal sets. */
  lemma JaccardMeasures(left: set<Shingle>, right: set<Shingle>)
    ensures 0.0 <= Jaccard(left, right) <= 1.0
    ensures Jaccard(left, right) == 1.0 <==> left == right
    ensures Jaccard(left, right) > 0.0 <==> left == right || left * right != {}
    ensures left + right != {} ==> Jaccard(left, right) * |left + right| as real == |left * right| as real
  {
    if left != {} && right != {} {
      MeetInJoin(left, right);
      QuotientTimes(|left * right|, |left + right|);
    } else {
      assert left * right == {};
    }
  }

  lemma MeetInJoin(left: set<Shingle>, right: set<Shingle>)
    ensures |left * right| <= |left + right|
    ensures |left * right| == |left + right| <==> left == right
  {
    var rest := (left + right) - (left * right);
    assert left + right == left * right + rest && (left * right) * rest == {};
    if rest == {} {
      assert left + right == left * right;
      assert left <= left * right && right <= left * right;
    }
  }

  function ShingleSet(tokens: Tokens): set<Shingle> {
    set s | s in Shingles(tokens)
  }

  /** The two texts score nothing against each other. */
  ghost predicate Unlike(a: Tokens, b: Tokens) {
    Jaccard(ShingleSet(a), ShingleSet(b)) == 0.0 && IsOverlap(a, b, 0.0, false)
  }

  lemma NewWordIsUnlike(word: string, text: Tokens)
    requires word !in text
    ensures Unlike([word], text)
  {
    if text != [] {
      assert IsCommonPrefix([word], text, 0) && IsCommonSuffix([word], text, 0);
      assert Ratio(0, 0, 1) == 0.0;
    }
    assert Shingles([word]) == [Shingle([word])];
    OneWordShingle(word, text);
    assert ShingleSet([word]) == {Shingle([word])};
    assert ShingleSet([word]) * ShingleSet(text) == {};
  }

  lemma OneWordShingle(word: string, text: Tokens)
    requires word !in text
    ensures Shingle([word]) !in ShingleSet(text)
  {
    if |text| >= SHINGLE_SIZE {
      WindowsAreLong(text, |text| - SHINGLE_SIZE + 1);
      AppendNewMembers([], Windows(text, |text| - SHINGLE_SIZE + 1));
    } else if text != [] {
      assert text[0] in text;
    }
  }

  lemma {:induction false} WindowsAreLong(text: Tokens, n: nat)
    requires n + SHINGLE_SIZE <= |text| + 1
    ensures forall w :: w in Windows(text, n) ==> |w.tokens| == SHINGLE_SIZE
  {
    if n > 0 {
      WindowsAreLong(text, n - 1);
    }
  }
}
