/** The integer side of the noise generators: the lattice hashes that turn a
    lattice corner into a table index, and the process-wide table cache keyed
    by (kind, seed, size). The floating-point evaluation is not modelled. */
module Noise {

  /** `hash2d` of value noise: corner (ix, iy) to an index into a table of
      `size` values. Integer `%` by a positive divisor is never negative, as in
      the source, so negative corners are safe. */
  function ValueIndex(ix: int, iy: int, size: int): (idx: int)
    requires size > 0
    ensures 0 <= idx < size
  {
    ((ix % size) * 57 + (iy % size) * 113) % size
  }

  /** `hash2d` of gradient noise: double indirection through the permutation,
      giving an index into the `size` gradient vectors. Only the first `size`
      entries of `perm` are ever read. */
  function GradientIndex(perm: seq<int>, ix: int, iy: int, size: int): (idx: int)
    requires size > 0 && |perm| >= size
    ensures 0 <= idx < size
  {
    perm[(perm[ix % size] + iy) % size] % size
  }

  /** The batched `hash2d_vec` of value noise over paired coordinate arrays:
      element k is the scalar hash of corner (xs[k], ys[k]). */
  function ValueIndices(xs: seq<int>, ys: seq<int>, size: int): (idx: seq<int>)
    requires size > 0 && |xs| == |ys|
    ensures |idx| == |xs|
    ensures forall k :: 0 <= k < |idx| ==> idx[k] == ValueIndex(xs[k], ys[k], size)
  {
    seq(|xs|, k requires 0 <= k < |xs| => ((xs[k] % size) * 57 + (ys[k] % size) * 113) % size)
  }

  /** The batched `hash2d_vec` of gradient noise: element k is the scalar
      hash of corner (xs[k], ys[k]). */
  function GradientIndices(perm: seq<int>, xs: seq<int>, ys: seq<int>, size: int): (idx: seq<int>)
    requires size > 0 && |perm| >= size && |xs| == |ys|
    ensures |idx| == |xs|
    ensures forall k :: 0 <= k < |idx| ==> idx[k] == GradientIndex(perm, xs[k], ys[k], size)
  {
    seq(|xs|, k requires 0 <= k < |xs| => perm[(perm[xs[k] % size] + ys[k]) % size] % size)
  }

  /** Euclidean division is unique: a representation `x = q*n + r` with
      `0 <= r < n` fixes the remainder. */
  lemma ModUnique(x: int, q: int, r: int, n: int)
    requires n > 0 && 0 <= r < n && x == q * n + r
    ensures x % n == r
  {
    var d := q - x / n;
    assert d * n == x % n - r by {
      assert x == (x / n) * n + x % n;
      assert d * n == q * n - (x / n) * n;
    }
    MulStrictlyBetween(d, n);
  }

  /** A multiple of `n` strictly between `-n` and `n` is zero. */
  lemma MulStrictlyBetween(d: int, n: int)
    requires n > 0 && -n < d * n < n
    ensures d == 0
  {
  }

  lemma ModShift(a: int, n: int, k: int)
    requires n > 0
    ensures (a + k * n) % n == a % n
  {
    assert a == (a / n) * n + a % n;
    assert a + k * n == (a / n + k) * n + a % n;
    ModUnique(a + k * n, a / n + k, a % n, n);
  }

  /** The value-noise hash tiles the plane with period `size` in both axes. */
  lemma ValueIndexPeriodic(ix: int, iy: int, size: int, k: int, m: int)
    requires size > 0
    ensures ValueIndex(ix + k * size, iy + m * size, size) == ValueIndex(ix, iy, size)
  {
    ModShift(ix, size, k);
    ModShift(iy, size, m);
  }

  /** The gradient-noise hash tiles the plane with period `size` in both axes. */
  lemma GradientIndexPeriodic(perm: seq<int>, ix: int, iy: int, size: int, k: int, m: int)
    requires size > 0 && |perm| >= size
    ensures GradientIndex(perm, ix + k * size, iy + m * size, size) == GradientIndex(perm, ix, iy, size)
  {
    ModShift(ix, size, k);
    ModShift(perm[ix % size] + iy, size, m);
    assert perm[ix % size] + (iy + m * size) == (perm[ix % size] + iy) + m * size;
  }

  /** `perm` holds each of 0 .. n-1 exactly once. */
  predicate IsPermutation(perm: seq<int>, n: nat)
  {
    |perm| == n &&
    (forall k :: 0 <= k < n ==> 0 <= perm[k] < n) &&
    (forall j, k :: 0 <= j < k < n ==> perm[j] != perm[k])
  }

  /** With a permutation, the final `% size` of the gradient hash never
      changes the value: the hash is the permutation entry itself. */
  lemma GradientIndexIsEntry(perm: seq<int>, ix: int, iy: int, size: int)
    requires size > 0 && |perm| >= size && IsPermutation(perm[..size], size)
    ensures GradientIndex(perm, ix, iy, size) == perm[(perm[ix % size] + iy) % size]
  {
    var k := (perm[ix % size] + iy) % size;
    assert perm[..size][k] == perm[k];
    ModUnique(perm[k], 0, perm[k], size);
  }

  /** Doubling the permutation does not change any gradient hash: the second
      copy is never read. */
  lemma DoubledPermutationUnused(perm: seq<int>, ix: int, iy: int, size: int)
    requires size > 0 && |perm| == size
    ensures GradientIndex(perm + perm, ix, iy, size) == GradientIndex(perm, ix, iy, size)
  {
  }

  /** Number of entries `range(size)` yields. */
  function Count(size: int): nat
  {
    if size < 0 then 0 else size
  }

  /** The seeded generator, as functions of (seed, count): the floats of
      `random()` drawn `count` times, and the shuffle of 0 .. count-1. */
  datatype Prng = Prng(floats: (int, int) -> seq<real>, shuffled: (int, int) -> seq<int>)
  {
    /** What the generator promises: `count` floats in [0, 1), and a permutation. */
    ghost predicate Ok()
    {
      forall seed, size ::
        |floats(seed, size)| == Count(size) &&
        (forall k :: 0 <= k < |floats(seed, size)| ==> 0.0 <= floats(seed, size)[k] < 1.0) &&
        IsPermutation(shuffled(seed, size), Count(size))
    }
  }

  datatype Kind = ValueKind | GradientKind

  datatype Key = Key(kind: Kind, seed: int, size: int)

  /** A gradient vector: the unit vector at angle 2·π·step/steps. */
  datatype Direction = Direction(step: int, steps: int)

  datatype Table =
    | Values(values: seq<real>)
    | Gradients(perm: seq<int>, directions: seq<Direction>)

  /** What a table built for `key` looks like. */
  predicate WellFormed(key: Key, t: Table)
  {
    var n := Count(key.size);
    match key.kind
    case ValueKind =>
      t.Values? && |t.values| == n && forall k :: 0 <= k < n ==> 0.0 <= t.values[k] < 1.0
    case GradientKind =>
      t.Gradients? && |t.perm| == 2 * n && |t.directions| == n &&
      IsPermutation(t.perm[..n], n) &&
      (forall k :: 0 <= k < n ==> t.perm[n + k] == t.perm[k]) &&
      (forall k :: 0 <= k < n ==> t.directions[k] == Direction(k, key.size))
  }

  /** The table the source builds on a cache miss for `key`. */
  function Generate(rng: Prng, key: Key): (t: Table)
    requires rng.Ok()
    ensures WellFormed(key, t)
  {
    match key.kind
    case ValueKind => Values(rng.floats(key.seed, key.size))
    case GradientKind =>
      var perm := rng.shuffled(key.seed, key.size);
      assert (perm + perm)[..Count(key.size)] == perm;
      Gradients(perm + perm, seq(Count(key.size), k => Direction(k, key.size)))
  }

  /** Every gradient hash of a built table indexes its direction list. */
  lemma GradientLookupInRange(rng: Prng, seed: int, size: int, ix: int, iy: int)
    requires rng.Ok() && size > 0
    ensures var t := Generate(rng, Key(GradientKind, seed, size));
      GradientIndex(t.perm, ix, iy, |t.directions|) < |t.directions| &&
      GradientIndex(t.perm, ix, iy, |t.directions|) == GradientIndex(rng.shuffled(seed, size), ix, iy, size)
  {
    var t := Generate(rng, Key(GradientKind, seed, size));
    DoubledPermutationUnused(rng.shuffled(seed, size), ix, iy, size);
  }

  /** The module-level cache: built tables by key, created on first request
      and never evicted. */
  class NoiseCache {
    var entries: map<Key, Table>
    const rng: Prng

    /** Every cached table is the one the generator builds for its key. */
    ghost predicate Valid()
      reads this
    {
      rng.Ok() && forall k :: k in entries ==> entries[k] == Generate(rng, k)
    }

    constructor (rng: Prng)
      requires rng.Ok()
      ensures Valid() && this.rng == rng && entries == map[]
    {
      this.rng := rng;
      entries := map[];
    }

    /** `_get_noise_table`: the value table for (seed, size), built and stored
        on the first request only. */
    method GetNoiseTable(seed: int, size: int) returns (table: seq<real>)
      requires Valid()
      modifies this
      ensures Valid()
      ensures Values(table) == Generate(rng, Key(ValueKind, seed, size))
      ensures entries == old(entries)[Key(ValueKind, seed, size) := Values(table)]
      ensures Key(ValueKind, seed, size) in old(entries) ==> entries == old(entries)
    {
      var key := Key(ValueKind, seed, size);
      if key !in entries {
        entries := entries[key := Values(rng.floats(seed, size))];
      }
      table := entries[key].values;
    }

    /** `_get_gradient_table`: the doubled permutation and the direction list
        for (seed, size), built and stored on the first request only. */
    method GetGradientTable(seed: int, size: int) returns (perm: seq<int>, directions: seq<Direction>)
      requires Valid()
      modifies this
      ensures Valid()
      ensures Gradients(perm, directions) == Generate(rng, Key(GradientKind, seed, size))
      ensures entries == old(entries)[Key(GradientKind, seed, size) := Gradients(perm, directions)]
      ensures Key(GradientKind, seed, size) in old(entries) ==> entries == old(entries)
    {
      var key := Key(GradientKind, seed, size);
      if key !in entries {
        var shuffled := rng.shuffled(seed, size);
        var p := shuffled + shuffled;
        var dirs := seq(Count(size), k => Direction(k, size));
        entries := entries[key := Gradients(p, dirs)];
      }
      perm := entries[key].perm;
      directions := entries[key].directions;
    }
  }
}
