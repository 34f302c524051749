/** SimHash signatures and their four 16-bit bands.

    Signatures are natural numbers read bit by bit, lowest first. `digest` is the 64-bit
    hash of a shingle, a parameter. */
module SimHash {
  import opened Wrappers

  const BITS: nat := 64
  const BANDS: nat := 4
  const BAND_BITS: nat := 16

  // -------------------------------------------------------------------- bits

  function Bit(v: nat, i: nat): bool
    decreases i, v
  {
    if i == 0 then v % 2 == 1 else Bit(v / 2, i - 1)
  }

  /** `v >> n` */
  function ShiftRight(v: nat, n: nat): nat
    decreases n, v
  {
    if n == 0 then v else ShiftRight(v / 2, n - 1)
  }

  /** `v & ((1 << n) - 1)` */
  function LowBits(v: nat, n: nat): nat
    decreases n, v
  {
    if n == 0 then 0 else v % 2 + 2 * LowBits(v / 2, n - 1)
  }

  /** The number whose bits, lowest first, are these. */
  function FromBits(bits: seq<bool>): nat {
    if bits == [] then 0 else (if bits[0] then 1 else 0) + 2 * FromBits(bits[1..])
  }

  /** The two operations are the quotient and the remainder by a power of two. */
  lemma {:induction false} ShiftAndMaskDivide(v: nat, n: nat)
    ensures v == Pow2(n) * ShiftRight(v, n) + LowBits(v, n) && LowBits(v, n) < Pow2(n)
    decreases n
  {
    if n > 0 {
      ShiftAndMaskDivide(v / 2, n - 1);
      DoubledProduct(Pow2(n - 1), ShiftRight(v, n), LowBits(v / 2, n - 1), v);
    }
  }

  lemma DoubledProduct(p: nat, q: nat, low: nat, v: nat)
    requires v / 2 == p * q + low
    ensures v == (2 * p) * q + (v % 2 + 2 * low)
  {
    assert (2 * p) * q == 2 * (p * q);
  }

  lemma {:induction false} BitsOf(bits: seq<bool>, i: nat)
    requires i < |bits|
    ensures Bit(FromBits(bits), i) == bits[i]
  {
    var v, rest := FromBits(bits), FromBits(bits[1..]);
    assert v / 2 == rest && (v % 2 == 1 <==> bits[0]);
    if i > 0 {
      assert Bit(v, i) == Bit(v / 2, i - 1);
      BitsOf(bits[1..], i - 1);
    }
  }

  lemma {:induction false} AppendBit(bits: seq<bool>, b: bool)
    ensures FromBits(bits + [b]) == FromBits(bits) + (if b then Pow2(|bits|) else 0)
  {
    if bits == [] {
      assert bits + [b] == [b] && [b][1..] == [];
    } else {
      assert (bits + [b])[1..] == bits[1..] + [b];
      AppendBit(bits[1..], b);
    }
  }

  lemma {:induction false} NothingAbove(bits: seq<bool>)
    ensures ShiftRight(FromBits(bits), |bits|) == 0
  {
    if bits != [] {
      NothingAbove(bits[1..]);
    }
  }

  // ------------------------------------------------------------------- bands

  function Band(v: nat, band: nat): nat {
    LowBits(ShiftRight(v, band * BAND_BITS), BAND_BITS)
  }

  /** The (band, value) rows an archive is indexed under. */
  function Bands(v: nat): seq<(nat, nat)> {
    [(0, Band(v, 0)), (1, Band(v, 1)), (2, Band(v, 2)), (3, Band(v, 3))]
  }

  method SimHashBuckets(v: nat) returns (buckets: seq<(nat, nat)>)
    ensures buckets == Bands(v)
  {
    buckets := [];
    for band := 0 to BANDS
      invariant buckets == Bands(v)[..band]
    {
      buckets := buckets + [(band, LowBits(ShiftRight(v, band * BAND_BITS), BAND_BITS))];
    }
  }

  lemma {:induction false} ShiftTwice(v: nat, m: nat, n: nat)
    ensures ShiftRight(ShiftRight(v, m), n) == ShiftRight(v, m + n)
    decreases m
  {
    if m > 0 {
      ShiftTwice(v / 2, m - 1, n);
    }
  }

  /** A number written in base 2^16, lowest digit first. */
  function Unband(digits: seq<nat>): nat {
    if digits == [] then 0 else digits[0] + 0x1_0000 * Unband(digits[1..])
  }

  lemma Peel(v: nat, band: nat)
    ensures ShiftRight(v, band * BAND_BITS) == 0x1_0000 * ShiftRight(v, (band + 1) * BAND_BITS) + Band(v, band)
    ensures Band(v, band) < 0x1_0000
  {
    assert Pow2(4) == 16;
    assert Pow2(8) == 256;
    assert Pow2(12) == 4096;
    assert Pow2(16) == 0x1_0000;
    ShiftTwice(v, band * BAND_BITS, BAND_BITS);
    ShiftAndMaskDivide(ShiftRight(v, band * BAND_BITS), BAND_BITS);
  }

  /** The four bands of a 64-bit signature are its digits in base 2^16. */
  lemma BandsReassemble(v: nat)
    requires ShiftRight(v, BITS) == 0
    ensures v == Unband([Band(v, 0), Band(v, 1), Band(v, 2), Band(v, 3)])
    ensures forall band :: 0 <= band < BANDS ==> Band(v, band) < 0x1_0000
  {
    forall band | 0 <= band < BANDS
      ensures Band(v, band) < 0x1_0000
    {
      Peel(v, band);
    }
    Peel(v, 0);
    Peel(v, 1);
    Peel(v, 2);
    Peel(v, 3);
    var d := [Band(v, 0), Band(v, 1), Band(v, 2), Band(v, 3)];
    assert d[1..][1..][1..][1..] == [];
    assert Unband(d[1..][1..][1..]) == d[3];
    assert Unband(d[1..][1..]) == d[2] + 0x1_0000 * d[3];
  }

  /** Differing bits among positions `lo` to `hi`. */
  function Hamming(a: nat, b: nat, lo: nat, hi: nat): nat
    requires lo <= hi
    decreases hi, a
  {
    if hi == lo then 0 else Hamming(a, b, lo, hi - 1) + (if Bit(a, hi - 1) != Bit(b, hi - 1) then 1 else 0)
  }

  lemma {:induction false} HammingSplits(a: nat, b: nat, lo: nat, mid: nat, hi: nat)
    requires lo <= mid <= hi
    ensures Hamming(a, b, lo, hi) == Hamming(a, b, lo, mid) + Hamming(a, b, mid, hi)
    decreases hi
  {
    if mid < hi {
      HammingSplits(a, b, lo, mid, hi - 1);
    }
  }

  lemma {:induction false} ShiftedBit(v: nat, n: nat, i: nat)
    ensures Bit(ShiftRight(v, n), i) == Bit(v, n + i)
    decreases n
  {
    if n > 0 {
      ShiftedBit(v / 2, n - 1, i);
    }
  }

  lemma {:induction false} NoDifference(a: nat, b: nat, lo: nat, hi: nat, i: nat)
    requires lo <= i < hi && Hamming(a, b, lo, hi) == 0
    ensures Bit(a, i) == Bit(b, i)
    decreases hi
  {
    if i < hi - 1 {
      NoDifference(a, b, lo, hi - 1, i);
    }
  }

  lemma {:induction false} SameLowBits(a: nat, b: nat, n: nat)
    requires forall i: nat :: i < n ==> Bit(a, i) == Bit(b, i)
    ensures LowBits(a, n) == LowBits(b, n)
    decreases n
  {
    if n > 0 {
      assert Bit(a, 0) == Bit(b, 0);
      forall i: nat | i < n - 1
        ensures Bit(a / 2, i) == Bit(b / 2, i)
      {
        assert Bit(a, i + 1) == Bit(b, i + 1);
      }
      SameLowBits(a / 2, b / 2, n - 1);
    }
  }

  lemma SameBand(a: nat, b: nat, band: nat)
    requires Hamming(a, b, band * BAND_BITS, band * BAND_BITS + BAND_BITS) == 0
    ensures Band(a, band) == Band(b, band)
  {
    var lo := band * BAND_BITS;
    forall i: nat | i < BAND_BITS
      ensures Bit(ShiftRight(a, lo), i) == Bit(ShiftRight(b, lo), i)
    {
      ShiftedBit(a, lo, i);
      ShiftedBit(b, lo, i);
      NoDifference(a, b, lo, lo + BAND_BITS, lo + i);
    }
    SameLowBits(ShiftRight(a, lo), ShiftRight(b, lo), BAND_BITS);
  }

  /** Pigeonhole: signatures that differ in at most three bits share a band. */
  lemma CloseSignaturesShareABand(a: nat, b: nat) returns (band: nat)
    requires Hamming(a, b, 0, BITS) <= 3
    ensures band < BANDS && Band(a, band) == Band(b, band)
  {
    HammingSplits(a, b, 0, 16, 64);
    HammingSplits(a, b, 16, 32, 64);
    HammingSplits(a, b, 32, 48, 64);
    band := if Hamming(a, b, 0, 16) == 0 then 0 else if Hamming(a, b, 16, 32) == 0 then 1
            else if Hamming(a, b, 32, 48) == 0 then 2 else 3;
    SameBand(a, b, band);
  }

  // --------------------------------------------------------------- signatures

  datatype Shingle = Shingle(tokens: seq<string>)

  /** The hash of every shingle in play. */
  type Digests = map<Shingle, nat>

  function DigestOf(d: Digests, s: Shingle): nat {
    if s in d then d[s] else 0
  }

  /** A shingle votes for or against each bit. */
  function VoteOn(digest: nat, i: nat): int {
    if Bit(digest, i) then 1 else -1
  }

  function Weight(shingles: seq<Shingle>, d: Digests, i: nat): int {
    if shingles == [] then 0
    else Weight(shingles[..|shingles| - 1], d, i) + VoteOn(DigestOf(d, shingles[|shingles| - 1]), i)
  }

  /** The bits, lowest first, that the weights set. */
  ghost predicate Decides(weights: seq<int>, shingles: seq<Shingle>, d: Digests) {
    |weights| == BITS && forall i :: 0 <= i < BITS ==> weights[i] == Weight(shingles, d, i)
  }

  function SignBits(shingles: seq<Shingle>, d: Digests, n: nat): (bits: seq<bool>)
    ensures |bits| == n && forall i :: 0 <= i < n ==> bits[i] == (Weight(shingles, d, i) >= 0)
  {
    if n == 0 then [] else SignBits(shingles, d, n - 1) + [Weight(shingles, d, n - 1) >= 0]
  }

  function Signature(shingles: seq<Shingle>, d: Digests): nat {
    FromBits(SignBits(shingles, d, BITS))
  }

  /** `shingles` lists the set in the order it is iterated. */
  method SimHash64(shingles: seq<Shingle>, d: Digests) returns (value: nat)
    ensures value == Signature(shingles, d)
  {
    var weights := new int[BITS](_ => 0);
    for k := 0 to |shingles|
      invariant Decides(weights[..], shingles[..k], d)
    {
      Vote(weights, DigestOf(d, shingles[k]));
      assert shingles[..k + 1][..k] == shingles[..k];
    }
    assert shingles[..|shingles|] == shingles;
    value := Assemble(weights[..], shingles, d);
  }

  /** Adds one shingle's digest to the weights, in place. */
  method Vote(weights: array<int>, digest: nat)
    requires weights.Length == BITS
    modifies weights
    ensures forall i :: 0 <= i < BITS ==> weights[i] == old(weights[i]) + VoteOn(digest, i)
  {
    for bit := 0 to BITS
      invariant forall i :: bit <= i < BITS ==> weights[i] == old(weights[i])
      invariant forall i :: 0 <= i < bit ==> weights[i] == old(weights[i]) + VoteOn(digest, i)
    {
      weights[bit] := weights[bit] + VoteOn(digest, bit);
    }
  }

  /** Sets the bits whose weight is not negative. */
  method Assemble(weights: seq<int>, ghost shingles: seq<Shingle>, ghost d: Digests) returns (value: nat)
    requires Decides(weights, shingles, d)
    ensures value == Signature(shingles, d)
  {
    value := 0;
    for bit := 0 to BITS
      invariant value == FromBits(SignBits(shingles, d, bit))
    {
      AppendBit(SignBits(shingles, d, bit), weights[bit] >= 0);
      if weights[bit] >= 0 {
        value := value + Pow2(bit);
      }
    }
  }

  /** The shingles, by their place, whose digest has bit `i` set. */
  function Voters(shingles: seq<Shingle>, d: Digests, i: nat): set<nat> {
    set k: nat | k < |shingles| && Bit(DigestOf(d, shingles[k]), i)
  }

  lemma {:induction false} WeightCounts(shingles: seq<Shingle>, d: Digests, i: nat)
    ensures Weight(shingles, d, i) == 2 * |Voters(shingles, d, i)| - |shingles|
  {
    if shingles == [] {
      assert Voters(shingles, d, i) == {};
    } else {
      var n := |shingles| - 1;
      var front := shingles[..n];
      WeightCounts(front, d, i);
      if Bit(DigestOf(d, shingles[n]), i) {
        assert Voters(shingles, d, i) == Voters(front, d, i) + {n} && n !in Voters(front, d, i);
      } else {
        assert Voters(shingles, d, i) == Voters(front, d, i);
      }
    }
  }

  /** A bit of the signature is set if and only if at least half of the shingles have it set
      in their digest, and it has no more than 64 bits. */
  lemma SignatureIsMajority(shingles: seq<Shingle>, d: Digests, i: nat)
    requires i < BITS
    ensures Bit(Signature(shingles, d), i) <==> 2 * |Voters(shingles, d, i)| >= |shingles|
    ensures ShiftRight(Signature(shingles, d), BITS) == 0
  {
    WeightCounts(shingles, d, i);
    BitsOf(SignBits(shingles, d, BITS), i);
    NothingAbove(SignBits(shingles, d, BITS));
  }

  lemma {:induction false} WeightWithout(shingles: seq<Shingle>, d: Digests, i: nat, k: nat)
    requires k < |shingles|
    ensures Weight(shingles, d, i) ==
            Weight(shingles[..k] + shingles[k + 1..], d, i) + VoteOn(DigestOf(d, shingles[k]), i)
  {
    var n := |shingles| - 1;
    var rest := shingles[..k] + shingles[k + 1..];
    if k < n {
      WeightWithout(shingles[..n], d, i, k);
      assert rest[..|rest| - 1] == shingles[..n][..k] + shingles[..n][k + 1..];
    } else {
      assert rest == shingles[..n];
    }
  }

  lemma {:induction false} WeightIgnoresOrder(a: seq<Shingle>, b: seq<Shingle>, d: Digests, i: nat)
    requires multiset(a) == multiset(b)
    ensures Weight(a, d, i) == Weight(b, d, i)
  {
    if a == [] {
      assert |multiset(b)| == 0;
    } else {
      var n := |a| - 1;
      assert a[n] in multiset(a);
      var k := Find(b, a[n]);
      var rest := b[..k] + b[k + 1..];
      RemoveAt(a, n);
      RemoveAt(b, k);
      assert a[..n] + a[n + 1..] == a[..n];
      WeightWithout(b, d, i, k);
      WeightIgnoresOrder(a[..n], rest, d, i);
    }
  }

  lemma Find(b: seq<Shingle>, s: Shingle) returns (k: nat)
    requires s in multiset(b)
    ensures k < |b| && b[k] == s
  {
    k :| 0 <= k < |b| && b[k] == s;
  }

  lemma RemoveAt(b: seq<Shingle>, k: nat)
    requires k < |b|
    ensures multiset(b[..k] + b[k + 1..]) == multiset(b) - multiset{b[k]}
  {
    assert b == b[..k] + [b[k]] + b[k + 1..];
  }

  /** The order in which a set of shingles is iterated does not matter. */
  lemma SignatureIgnoresOrder(a: seq<Shingle>, b: seq<Shingle>, d: Digests)
    requires multiset(a) == multiset(b)
    ensures Signature(a, d) == Signature(b, d)
  {
    forall i | 0 <= i < BITS
      ensures Weight(a, d, i) == Weight(b, d, i)
    {
      WeightIgnoresOrder(a, b, d, i);
    }
    assert SignBits(a, d, BITS) == SignBits(b, d, BITS);
  }
}
