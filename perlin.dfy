/** `Perlin` (src/rt/noise/perlin.rs): the permutation tables, the lattice indexing of
    `noise` and the octave sum of `turb_with_depth`.

    The random draws are parameters: `targets[i]` is the value `random_i32_between(0, i)`
    returned when `permute` visits index `i`, and the 256 gradient vectors of `ranvec` are
    supplied as they were drawn. The trilinear blend `perlin_interp` is an uninterpreted
    function `interp` of the eight corner vectors (in the order `c[di][dj][dk]`, `dk`
    fastest) and the three fractional parts. */
module Noise {
  import opened Floats
  import opened Vectors

  const POINT_COUNT: int := 256

  type Interp = (seq<Vec3>, real, real, real) -> real

  /** The tables hold the `i32` values 0..255, represented exactly as 8-bit vectors. */
  datatype Perlin = Perlin(ranvec: seq<Vec3>, permX: seq<bv8>, permY: seq<bv8>, permZ: seq<bv8>)

  /** `(0..POINT_COUNT).collect()`. */
  function Identity(): (s: seq<bv8>)
    ensures |s| == POINT_COUNT && forall i | 0 <= i < POINT_COUNT :: s[i] == i as bv8
  {
    seq(POINT_COUNT, i requires 0 <= i < POINT_COUNT => i as bv8)
  }

  /** `s` is a permutation of `0..255`. */
  predicate IsPerm(s: seq<bv8>) {
    |s| == POINT_COUNT && multiset(s) == multiset(Identity())
  }

  predicate Valid(pl: Perlin) {
    |pl.ranvec| == POINT_COUNT && IsPerm(pl.permX) && IsPerm(pl.permY) && IsPerm(pl.permZ)
  }

  predicate TargetsOk(targets: seq<int>, n: int) {
    |targets| == n && forall i | 0 <= i < n :: 0 <= targets[i] <= i
  }

  function Swap(s: seq<bv8>, i: int, j: int): (t: seq<bv8>)
    requires 0 <= i < |s| && 0 <= j < |s|
    ensures |t| == |s| && t[i] == s[j] && t[j] == s[i]
    ensures forall k | 0 <= k < |s| && k != i && k != j :: t[k] == s[k]
  {
    s[i := s[j]][j := s[i]]
  }

  /** The swaps `permute` makes at indices `i - 1` down to `0`. */
  function Shuffle(s: seq<bv8>, targets: seq<int>, i: nat): (t: seq<bv8>)
    requires i <= |s| && i <= |targets|
    requires forall k | 0 <= k < i :: 0 <= targets[k] <= k
    ensures |t| == |s|
    decreases i
  {
    if i == 0 then s else Shuffle(Swap(s, i - 1, targets[i - 1]), targets, i - 1)
  }

  lemma SwapMultiset(s: seq<bv8>, i: int, j: int)
    requires 0 <= i < |s| && 0 <= j < |s|
    ensures multiset(Swap(s, i, j)) == multiset(s)
  {
  }

  lemma {:induction false} ShuffleMultiset(s: seq<bv8>, targets: seq<int>, i: nat)
    requires i <= |s| && i <= |targets|
    requires forall k | 0 <= k < i :: 0 <= targets[k] <= k
    ensures multiset(Shuffle(s, targets, i)) == multiset(s)
    decreases i
  {
    if i > 0 {
      SwapMultiset(s, i - 1, targets[i - 1]);
      ShuffleMultiset(Swap(s, i - 1, targets[i - 1]), targets, i - 1);
    }
  }

  /** `permute`: for `i` from `n - 1` down to `0`, swap `p[i]` with `p[targets[i]]`. */
  method Permute(p: array<bv8>, n: int, targets: seq<int>)
    requires 0 <= n <= p.Length
    requires TargetsOk(targets, n)
    modifies p
    ensures p[..] == Shuffle(old(p[..]), targets, n)
    ensures multiset(p[..]) == multiset(old(p[..]))
  {
    var i := n;
    while i > 0
      invariant 0 <= i <= n
      invariant Shuffle(p[..], targets, i) == Shuffle(old(p[..]), targets, n)
    {
      i := i - 1;
      ghost var before := p[..];
      var target := targets[i];
      var tmp := p[i];
      p[i] := p[target];
      p[target] := tmp;
      assert p[..] == Swap(before, i, target);
    }
    ShuffleMultiset(old(p[..]), targets, n);
  }

  /** `perlin_generate_perm`: `0..255` shuffled by `permute`. */
  method GeneratePerm(targets: seq<int>) returns (perm: seq<bv8>)
    requires TargetsOk(targets, POINT_COUNT)
    ensures perm == Shuffle(Identity(), targets, POINT_COUNT)
    ensures IsPerm(perm)
  {
    var p := new bv8[POINT_COUNT](i requires 0 <= i < POINT_COUNT => i as bv8);
    assert p[..] == Identity();
    Permute(p, POINT_COUNT, targets);
    perm := p[..];
  }

  /** `Perlin::new`: 256 gradient vectors and three independently shuffled tables. */
  method New(gradients: seq<Vec3>, tx: seq<int>, ty: seq<int>, tz: seq<int>) returns (pl: Perlin)
    requires |gradients| == POINT_COUNT
    requires TargetsOk(tx, POINT_COUNT) && TargetsOk(ty, POINT_COUNT) && TargetsOk(tz, POINT_COUNT)
    ensures Valid(pl)
    ensures pl.ranvec == gradients
    ensures pl.permX == Shuffle(Identity(), tx, POINT_COUNT)
    ensures pl.permY == Shuffle(Identity(), ty, POINT_COUNT)
    ensures pl.permZ == Shuffle(Identity(), tz, POINT_COUNT)
  {
    var px := GeneratePerm(tx);
    var py := GeneratePerm(ty);
    var pz := GeneratePerm(tz);
    pl := Perlin(gradients, px, py, pz);
  }

  // ---------------------------------------------------------------- `noise`

  /** `(i + d) & 255` on a two's-complement integer: the low eight bits, which is the
      Euclidean remainder modulo 256, also for negative `i`. */
  function Lattice(i: int, d: int): (r: int)
    ensures 0 <= r < POINT_COUNT
    ensures r % 256 == (i + d) % 256
  {
    (i + d) % 256
  }

  /** `x.floor() as i32`: the lattice cell of a coordinate, saturated at the bounds of
      `i32`. */
  function Cell(x: real): (i: int)
    ensures I32_MIN <= x.Floor <= I32_MAX ==> i == x.Floor
    ensures x.Floor < I32_MIN ==> i == I32_MIN
    ensures I32_MAX < x.Floor ==> i == I32_MAX
  {
    AsI32(x.Floor as real)
  }

  /** At the largest cell, `i + 1` overflows `i32`. A wrapping add gives `i32::MIN`, whose
      low byte is the one `Lattice` takes of the unbounded sum. */
  lemma LatticeAtOverflow()
    ensures Lattice(I32_MAX, 1) == Lattice(I32_MIN, 0) == 0
  {
  }

  /** `perm_x[i] ^ perm_y[j] ^ perm_z[k]`: the exclusive or of three table entries. */
  function XorIndex(a: bv8, b: bv8, c: bv8): (r: int)
    ensures 0 <= r < POINT_COUNT
  {
    (a ^ b ^ c) as int
  }

  /** The gradient stored in `c[di][dj][dk]` for the cell whose lower corner is (i, j, k). */
  function Corner(pl: Perlin, i: int, j: int, k: int, di: int, dj: int, dk: int): Vec3
    requires Valid(pl)
  {
    pl.ranvec[XorIndex(pl.permX[Lattice(i, di)], pl.permY[Lattice(j, dj)], pl.permZ[Lattice(k, dk)])]
  }

  /** The eight corners in the order `c[0][0][0], c[0][0][1], ..., c[1][1][1]`. */
  function Corners(pl: Perlin, i: int, j: int, k: int): (cs: seq<Vec3>)
    requires Valid(pl)
    ensures |cs| == 8
  {
    seq(8, m requires 0 <= m < 8 => CornerAt(pl, i, j, k, m))
  }

  /** Corner number `m` of the order above: `m` written in binary is `di dj dk`. */
  function CornerAt(pl: Perlin, i: int, j: int, k: int, m: int): Vec3
    requires Valid(pl) && 0 <= m < 8
  {
    if m == 0 then Corner(pl, i, j, k, 0, 0, 0)
    else if m == 1 then Corner(pl, i, j, k, 0, 0, 1)
    else if m == 2 then Corner(pl, i, j, k, 0, 1, 0)
    else if m == 3 then Corner(pl, i, j, k, 0, 1, 1)
    else if m == 4 then Corner(pl, i, j, k, 1, 0, 0)
    else if m == 5 then Corner(pl, i, j, k, 1, 0, 1)
    else if m == 6 then Corner(pl, i, j, k, 1, 1, 0)
    else Corner(pl, i, j, k, 1, 1, 1)
  }

  function NoiseAt(pl: Perlin, interp: Interp, p: Vec3): real
    requires Valid(pl)
  {
    var i, j, k := Cell(p.x), Cell(p.y), Cell(p.z);
    interp(Corners(pl, i, j, k), p.x - p.x.Floor as real, p.y - p.y.Floor as real, p.z - p.z.Floor as real)
  }

  /** The nested loops of `noise`: entry `c[di][dj][dk]` is the gradient at that corner. */
  method FillCorners(pl: Perlin, i: int, j: int, k: int) returns (c: array3<Vec3>)
    requires Valid(pl)
    ensures fresh(c) && c.Length0 == 2 && c.Length1 == 2 && c.Length2 == 2
    ensures forall a, b, d | 0 <= a < 2 && 0 <= b < 2 && 0 <= d < 2 :: c[a, b, d] == Corner(pl, i, j, k, a, b, d)
  {
    c := new Vec3[2, 2, 2]((_, _, _) => ZERO);
    for di := 0 to 2
      invariant forall a, b, d | 0 <= a < di && 0 <= b < 2 && 0 <= d < 2 :: c[a, b, d] == Corner(pl, i, j, k, a, b, d)
    {
      for dj := 0 to 2
        invariant forall a, b, d | 0 <= a < di && 0 <= b < 2 && 0 <= d < 2 :: c[a, b, d] == Corner(pl, i, j, k, a, b, d)
        invariant forall b, d | 0 <= b < dj && 0 <= d < 2 :: c[di, b, d] == Corner(pl, i, j, k, di, b, d)
      {
        for dk := 0 to 2
          invariant forall a, b, d | 0 <= a < di && 0 <= b < 2 && 0 <= d < 2 :: c[a, b, d] == Corner(pl, i, j, k, a, b, d)
          invariant forall b, d | 0 <= b < dj && 0 <= d < 2 :: c[di, b, d] == Corner(pl, i, j, k, di, b, d)
          invariant forall d | 0 <= d < dk :: c[di, dj, d] == Corner(pl, i, j, k, di, dj, d)
        {
          var li, lj, lk := Lattice(i, di), Lattice(j, dj), Lattice(k, dk);
          var index := XorIndex(pl.permX[li], pl.permY[lj], pl.permZ[lk]);
          c[di, dj, dk] := pl.ranvec[index];
          assert c[di, dj, dk] == Corner(pl, i, j, k, di, dj, dk);
        }
      }
    }
  }

  /** `noise`: the fractional parts, the corner table, then the blend. */
  method NoiseMethod(pl: Perlin, interp: Interp, p: Vec3) returns (n: real)
    requires Valid(pl)
    ensures n == NoiseAt(pl, interp, p)
  {
    var u, v, w := p.x - p.x.Floor as real, p.y - p.y.Floor as real, p.z - p.z.Floor as real;
    var i, j, k := Cell(p.x), Cell(p.y), Cell(p.z);
    var c := FillCorners(pl, i, j, k);
    var cs := [c[0, 0, 0], c[0, 0, 1], c[0, 1, 0], c[0, 1, 1], c[1, 0, 0], c[1, 0, 1], c[1, 1, 0], c[1, 1, 1]];
    ghost var expected := Corners(pl, i, j, k);
    assert expected[0] == cs[0] && expected[1] == cs[1] && expected[2] == cs[2] && expected[3] == cs[3];
    assert expected[4] == cs[4] && expected[5] == cs[5] && expected[6] == cs[6] && expected[7] == cs[7];
    assert cs == expected;
    n := interp(cs, u, v, w);
  }

  // ---------------------------------------------------------------- `turb`

  /** The noise of a generator as a field over space. */
  function Field(pl: Perlin, interp: Interp): (field: Vec3 -> real)
    requires Valid(pl)
    ensures forall q :: field(q) == NoiseAt(pl, interp, q)
  {
    q => NoiseAt(pl, interp, q)
  }

  /** Octaves still to add: the weight halves and the point doubles at each one. */
  function Octaves(field: Vec3 -> real, p: Vec3, weight: real, n: nat): real
    decreases n
  {
    if n == 0 then 0.0
    else weight * field(p) + Octaves(field, ScaleLeft(2.0, p), weight * 0.5, n - 1)
  }

  /** The value of `turb_with_depth`; a negative `depth` runs no octave. */
  function Turbulence(pl: Perlin, interp: Interp, p: Vec3, depth: int): (t: real)
    requires Valid(pl)
    ensures 0.0 <= t
    ensures depth <= 0 ==> t == 0.0
  {
    Abs(Octaves(Field(pl, interp), p, 1.0, if depth < 0 then 0 else depth))
  }

  /** `turb_with_depth`: the octave loop, then the absolute value. */
  method TurbWithDepth(pl: Perlin, interp: Interp, p: Vec3, depth: int) returns (t: real)
    requires Valid(pl)
    ensures t == Turbulence(pl, interp, p, depth)
  {
    var accum := 0.0;
    var weight := 1.0;
    var tempP := p;
    var n := if depth < 0 then 0 else depth;
    ghost var field := Field(pl, interp);
    for step := 0 to n
      invariant accum + Octaves(field, tempP, weight, n - step) == Octaves(field, p, 1.0, n)
    {
      var noise := NoiseMethod(pl, interp, tempP);
      assert noise == field(tempP);
      accum := accum + weight * noise;
      weight := weight * 0.5;
      tempP := ScaleLeft(2.0, tempP);
    }
    t := Abs(accum);
  }

  /** `turb`: seven octaves. */
  method Turb(pl: Perlin, interp: Interp, p: Vec3) returns (t: real)
    requires Valid(pl)
    ensures t == Turbulence(pl, interp, p, 7)
  {
    t := TurbWithDepth(pl, interp, p, 7);
  }

  /** The octave sum is linear in its starting weight. */
  lemma {:induction false} OctavesHomogeneous(field: Vec3 -> real, p: Vec3, weight: real, n: nat)
    ensures Octaves(field, p, weight, n) == weight * Octaves(field, p, 1.0, n)
    decreases n
  {
    if n > 0 {
      var q := ScaleLeft(2.0, p);
      OctavesHomogeneous(field, q, weight * 0.5, n - 1);
      OctavesHomogeneous(field, q, 0.5, n - 1);
      var x, y := Octaves(field, q, 1.0, n - 1), field(p);
      assert Octaves(field, p, weight, n) == weight * y + weight * 0.5 * x;
      assert Octaves(field, p, 1.0, n) == 1.0 * y + 0.5 * x;
      assert weight * y + weight * 0.5 * x == weight * (1.0 * y + 0.5 * x);
    }
  }

  /** Self-similarity of turbulence: one more octave adds the noise at `p` to half of the
      same sum taken at the doubled point. */
  lemma OctaveStep(field: Vec3 -> real, p: Vec3, n: nat)
    ensures Octaves(field, p, 1.0, n + 1) == field(p) + 0.5 * Octaves(field, ScaleLeft(2.0, p), 1.0, n)
  {
    OctavesHomogeneous(field, ScaleLeft(2.0, p), 0.5, n);
  }

  /** Lattice indices wrap: the cell below 0 is cell 255. */
  lemma LatticeWraps(i: int)
    ensures Lattice(i, 1) == (Lattice(i, 0) + 1) % 256
    ensures Lattice(-1, 0) == 255 && Lattice(255, 1) == 0
  {
  }
}
