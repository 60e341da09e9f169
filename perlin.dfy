/**
 * The integer part of Perlin noise: the shuffled permutation tables, the
 * hashed lattice lookups into the random-vector table, and the octave sum
 * of turbulence (the noise value itself is a parameter).
 *
 * The source's `i32` values are kept as their 32-bit two's-complement
 * patterns (`bv32`), so that `+` wraps and `&`, `^` act on the bits.
 */
module Perlin {
  import opened Vec3

  const PointCount: nat := 256

  /** `k as i32` for a table position `k`. */
  function Nat8(k: nat): (b: bv32)
    requires k <= PointCount
    ensures b as int == k
  {
    if k == 0 then 0 else Nat8(k - 1) + 1
  }

  /** The table `0, 1, ..., 255`. */
  function IdentityTable(): (s: seq<bv32>)
    ensures |s| == PointCount && forall k :: 0 <= k < PointCount ==> s[k] as int == k
  {
    seq(PointCount, k requires 0 <= k < PointCount => Nat8(k))
  }

  /** Every entry is a table position. */
  predicate InTable(s: seq<bv32>) {
    forall k :: 0 <= k < |s| ==> s[k] as int < PointCount
  }

  /** Targets as the random generator draws them: the one for index `i` lies in `[0, i)`. */
  predicate ValidTargets(targets: seq<nat>) {
    |targets| == PointCount && forall i :: 1 <= i < PointCount ==> targets[i] < i
  }

  function Swap(s: seq<bv32>, i: nat, j: nat): (r: seq<bv32>)
    requires i < |s| && j < |s|
    ensures |r| == |s| && multiset(r) == multiset(s)
    ensures r[i] == s[j] && r[j] == s[i]
    ensures forall k :: 0 <= k < |s| && k != i && k != j ==> r[k] == s[k]
  {
    s[i := s[j]][j := s[i]]
  }

  /** The swaps for indices `i, i - 1, ..., 1`, each with its target. */
  function ShuffleDown(s: seq<bv32>, targets: seq<nat>, i: nat): (r: seq<bv32>)
    requires |s| == PointCount && ValidTargets(targets) && i < PointCount
    decreases i
    ensures |r| == PointCount
  {
    if i == 0 then s else ShuffleDown(Swap(s, i, targets[i]), targets, i - 1)
  }

  /** Swapping only rearranges: the shuffled table holds the same entries. */
  lemma {:induction false} ShufflePermutes(s: seq<bv32>, targets: seq<nat>, i: nat)
    requires |s| == PointCount && ValidTargets(targets) && i < PointCount
    decreases i
    ensures multiset(ShuffleDown(s, targets, i)) == multiset(s)
  {
    if i > 0 {
      ShufflePermutes(Swap(s, i, targets[i]), targets, i - 1);
    }
  }

  /**
   * The positions above `i` are final: the swaps for `i` and below never
   * touch them, since every target lies below its index.
   */
  lemma {:induction false} ShuffleKeepsAbove(s: seq<bv32>, targets: seq<nat>, i: nat, k: nat)
    requires |s| == PointCount && ValidTargets(targets) && i < k < PointCount
    decreases i
    ensures ShuffleDown(s, targets, i)[k] == s[k]
  {
    ShufflePermutes(s, targets, i);
    if i > 0 {
      ShuffleKeepsAbove(Swap(s, i, targets[i]), targets, i - 1, k);
    }
  }

  /** A generated table: the identity table shuffled with `targets`. */
  function Shuffled(targets: seq<nat>): seq<bv32>
    requires ValidTargets(targets)
  {
    ShuffleDown(IdentityTable(), targets, PointCount - 1)
  }

  /** Every generated table is a permutation of `0..255`, so every entry is a table position. */
  lemma GeneratedIsPermutation(targets: seq<nat>)
    requires ValidTargets(targets)
    ensures var p := Shuffled(targets);
      |p| == PointCount && multiset(p) == multiset(IdentityTable()) && InTable(p)
  {
    var p := ShuffleDown(IdentityTable(), targets, PointCount - 1);
    ShufflePermutes(IdentityTable(), targets, PointCount - 1);
    forall k | 0 <= k < PointCount ensures p[k] as int < PointCount {
      assert p[k] in multiset(IdentityTable());
      var m :| 0 <= m < PointCount && IdentityTable()[m] == p[k];
    }
  }

  /** `permutate`: for `i` from 255 down to 1, entry `i` is swapped with entry `targets[i]`. */
  method Permutate(p: array<bv32>, targets: seq<nat>)
    requires p.Length == PointCount && ValidTargets(targets)
    modifies p
    ensures p[..] == ShuffleDown(old(p[..]), targets, PointCount - 1)
  {
    var i := PointCount - 1;
    while i > 0
      invariant 0 <= i < PointCount
      invariant ShuffleDown(p[..], targets, i) == ShuffleDown(old(p[..]), targets, PointCount - 1)
    {
      var target := targets[i];
      p[i], p[target] := p[target], p[i];
      i := i - 1;
    }
  }

  /** `perlin_generate_perm`: the identity table, shuffled. */
  method GeneratePerm(targets: seq<nat>) returns (p: array<bv32>)
    requires ValidTargets(targets)
    ensures fresh(p) && p.Length == PointCount
    ensures p[..] == Shuffled(targets)
    ensures InTable(p[..])
  {
    p := new bv32[PointCount];
    for i := 0 to PointCount
      invariant forall k :: 0 <= k < i ==> p[k] == Nat8(k)
    {
      p[i] := Nat8(i);
    }
    assert p[..] == IdentityTable();
    Permutate(p, targets);
    GeneratedIsPermutation(targets);
  }

  /** `d as i32` for a corner offset `d` in `{0, 1}`. */
  function Offset(d: nat): bv32
    requires d < 2
  {
    if d == 0 then 0 else 1
  }

  /**
   * `((i + d) & 255) as usize`: the table index of lattice coordinate `i`
   * offset by `d`; the addition wraps at 32 bits, and the index is a table
   * position for every `i`, negative ones included.
   */
  function HashIndex(i: bv32, d: nat): (r: nat)
    requires d < 2
    ensures r < PointCount
  {
    ((i + Offset(d)) & 0xFF) as int
  }

  /** The index repeats with period 256 along each axis. */
  lemma HashIndexPeriodic(i: bv32, d: nat)
    requires d < 2
    ensures HashIndex(i + 256, d) == HashIndex(i, d)
  {
  }

  /** At -1 (all bits set) the index is 255, and one step on it wraps to 0. */
  lemma HashIndexAtMinusOne()
    ensures HashIndex(0xFFFF_FFFF, 0) == 255
    ensures HashIndex(0xFFFF_FFFF, 1) == 0
  {
  }

  lemma LowByte(b: bv32)
    requires b as int < PointCount
    ensures b <= 0xFF
  {
  }

  /** The XOR of three table entries: itself a position in the random-vector table. */
  function Xor3(a: bv32, b: bv32, c: bv32): (r: nat)
    requires a as int < PointCount && b as int < PointCount && c as int < PointCount
    ensures r < PointCount
  {
    LowByte(a);
    LowByte(b);
    LowByte(c);
    (a ^ b ^ c) as int
  }

  /** The random-vector index of corner `(di, dj, dk)` of lattice cell `(i, j, k)`. */
  function CornerIndex(px: seq<bv32>, py: seq<bv32>, pz: seq<bv32>, i: bv32, j: bv32, k: bv32, di: nat, dj: nat, dk: nat): (r: nat)
    requires |px| == |py| == |pz| == PointCount && InTable(px) && InTable(py) && InTable(pz)
    requires di < 2 && dj < 2 && dk < 2
    ensures r < PointCount
  {
    var x, y, z := HashIndex(i, di), HashIndex(j, dj), HashIndex(k, dk);
    Xor3(px[x], py[y], pz[z])
  }

  /** The turbulence sum of `n` octaves from `p`, the first with weight `weight`. */
  function Octaves(p: Vec3, weight: real, n: nat, noise: Vec3 -> real): real
    decreases n
  {
    if n == 0 then 0.0 else weight * noise(p) + Octaves(MulAssign(p, 2.0), weight * 0.5, n - 1, noise)
  }

  function Abs(x: real): (r: real)
    ensures 0.0 <= r && (r == x || r == -x)
  {
    if x < 0.0 then -x else x
  }

  lemma WeightedBound(w: real, x: real, m: real)
    requires 0.0 <= w && -m <= x <= m
    ensures -(w * m) <= w * x <= w * m
  {
  }

  /**
   * With noise bounded by `m`, the octaves sum to at most twice the first
   * weight times `m`: the halving weights form a geometric series.
   */
  lemma {:induction false} OctavesBound(p: Vec3, weight: real, n: nat, noise: Vec3 -> real, m: real)
    requires 0.0 <= weight && forall q :: -m <= noise(q) <= m
    decreases n
    ensures -2.0 * weight * m <= Octaves(p, weight, n, noise) <= 2.0 * weight * m
  {
    if n == 0 {
      assert 0.0 <= m by {
        assert -m <= noise(p) <= m;
      }
      WeightedBound(weight, 0.0, m);
    } else {
      var rest := Octaves(MulAssign(p, 2.0), weight * 0.5, n - 1, noise);
      OctavesBound(MulAssign(p, 2.0), weight * 0.5, n - 1, noise, m);
      WeightedBound(weight, noise(p), m);
      assert Octaves(p, weight, n, noise) == weight * noise(p) + rest;
      assert -2.0 * (weight * 0.5) * m == -(weight * m) && 2.0 * (weight * 0.5) * m == weight * m;
      assert -2.0 * weight * m == -(weight * m) - weight * m && 2.0 * weight * m == weight * m + weight * m;
    }
  }

  /** The vector at corner `(di, dj, dk)` of lattice cell `(i, j, k)`. */
  function Corner(vecs: seq<Vec3>, px: seq<bv32>, py: seq<bv32>, pz: seq<bv32>, i: bv32, j: bv32, k: bv32, di: nat, dj: nat, dk: nat): Vec3
    requires |vecs| == |px| == |py| == |pz| == PointCount && InTable(px) && InTable(py) && InTable(pz)
    requires di < 2 && dj < 2 && dk < 2
  {
    vecs[CornerIndex(px, py, pz, i, j, k, di, dj, dk)]
  }

  /** The innermost lookup loop of `noise`: the two corners along `k` for fixed `di` and `dj`. */
  method CornerRow(vecs: seq<Vec3>, px: seq<bv32>, py: seq<bv32>, pz: seq<bv32>, i: bv32, j: bv32, k: bv32, di: nat, dj: nat)
    returns (row: seq<Vec3>)
    requires |vecs| == |px| == |py| == |pz| == PointCount && InTable(px) && InTable(py) && InTable(pz)
    requires di < 2 && dj < 2
    ensures |row| == 2 && forall dk :: 0 <= dk < 2 ==> row[dk] == Corner(vecs, px, py, pz, i, j, k, di, dj, dk)
  {
    row := [];
    for dk := 0 to 2
      invariant |row| == dk
      invariant forall e :: 0 <= e < dk ==> row[e] == Corner(vecs, px, py, pz, i, j, k, di, dj, e)
    {
      var index := Xor3(px[HashIndex(i, di)], py[HashIndex(j, dj)], pz[HashIndex(k, dk)]);
      row := row + [vecs[index]];
    }
  }

  /** The `k`-th random vector drawn, for each of the 256 table positions. */
  method RandomVectors(randomVector: nat -> Vec3) returns (vectors: seq<Vec3>)
    ensures |vectors| == PointCount && forall k :: 0 <= k < PointCount ==> vectors[k] == randomVector(k)
  {
    vectors := [];
    for k := 0 to PointCount
      invariant |vectors| == k && forall m :: 0 <= m < k ==> vectors[m] == randomVector(m)
    {
      vectors := vectors + [randomVector(k)];
    }
  }

  class Perlin {
    var ranVec: seq<Vec3>
    var permX: array<bv32>
    var permY: array<bv32>
    var permZ: array<bv32>

    /** The tables have their sizes, and every permutation entry indexes the vector table. */
    ghost predicate Valid()
      reads this, permX, permY, permZ
    {
      |ranVec| == PointCount
      && permX.Length == PointCount && permY.Length == PointCount && permZ.Length == PointCount
      && InTable(permX[..]) && InTable(permY[..]) && InTable(permZ[..])
    }

    /**
     * `Perlin::new`: 256 random vectors (the `k`-th drawn as `randomVector(k)`)
     * and three independently shuffled permutation tables.
     */
    constructor(randomVector: nat -> Vec3, targetsX: seq<nat>, targetsY: seq<nat>, targetsZ: seq<nat>)
      requires ValidTargets(targetsX) && ValidTargets(targetsY) && ValidTargets(targetsZ)
      ensures Valid()
      ensures |ranVec| == PointCount && forall k :: 0 <= k < PointCount ==> ranVec[k] == randomVector(k)
      ensures permX[..] == Shuffled(targetsX)
      ensures permY[..] == Shuffled(targetsY)
      ensures permZ[..] == Shuffled(targetsZ)
    {
      var vectors := RandomVectors(randomVector);
      var px := GeneratePerm(targetsX);
      var py := GeneratePerm(targetsY);
      var pz := GeneratePerm(targetsZ);
      ranVec, permX, permY, permZ := vectors, px, py, pz;
    }

    /**
     * The lattice lookups of `noise` at cell `(i, j, k)`: the 2 x 2 x 2 corner
     * vectors, each looked up through in-bounds table indices.
     */
    method Corners(i: bv32, j: bv32, k: bv32) returns (c: seq<seq<seq<Vec3>>>)
      requires Valid()
      ensures |c| == 2 && forall di :: 0 <= di < 2 ==> |c[di]| == 2 && forall dj :: 0 <= dj < 2 ==> |c[di][dj]| == 2
      ensures forall di, dj, dk :: 0 <= di < 2 && 0 <= dj < 2 && 0 <= dk < 2 ==>
        c[di][dj][dk] == Corner(ranVec, permX[..], permY[..], permZ[..], i, j, k, di, dj, dk)
    {
      var vecs, px, py, pz := ranVec, permX[..], permY[..], permZ[..];
      c := [];
      for di := 0 to 2
        invariant |c| == di
        invariant forall a :: 0 <= a < di ==> |c[a]| == 2 && forall b :: 0 <= b < 2 ==> |c[a][b]| == 2
        invariant forall a, b, e :: 0 <= a < di && 0 <= b < 2 && 0 <= e < 2 ==> c[a][b][e] == Corner(vecs, px, py, pz, i, j, k, a, b, e)
      {
        var plane := [];
        for dj := 0 to 2
          invariant |plane| == dj
          invariant forall b :: 0 <= b < dj ==> |plane[b]| == 2
          invariant forall b, e :: 0 <= b < dj && 0 <= e < 2 ==> plane[b][e] == Corner(vecs, px, py, pz, i, j, k, di, b, e)
        {
          var row := CornerRow(vecs, px, py, pz, i, j, k, di, dj);
          plane := plane + [row];
        }
        c := c + [plane];
      }
    }

    /**
     * `turbulence`: the absolute value of the octave sum, each octave at
     * twice the frequency and half the weight of the one before.
     */
    method Turbulence(point: Vec3, depth: nat, noise: Vec3 -> real) returns (r: real)
      ensures r == Abs(Octaves(point, 1.0, depth, noise))
    {
      var accum := 0.0;
      var tempP := point;
      var weight := 1.0;
      for step := 0 to depth
        invariant accum + Octaves(tempP, weight, depth - step, noise) == Octaves(point, 1.0, depth, noise)
      {
        accum := accum + weight * noise(tempP);
        weight := weight * 0.5;
        tempP := MulAssign(tempP, 2.0);
      }
      r := Abs(accum);
    }
  }

  /** Turbulence is never negative, vanishes with no octaves, and is below twice a bound on the noise. */
  lemma TurbulenceBounds(point: Vec3, depth: nat, noise: Vec3 -> real, m: real)
    requires forall q :: -m <= noise(q) <= m
    ensures 0.0 <= Abs(Octaves(point, 1.0, depth, noise)) <= 2.0 * m
    ensures depth == 0 ==> Abs(Octaves(point, 1.0, depth, noise)) == 0.0
  {
    OctavesBound(point, 1.0, depth, noise, m);
  }
}
