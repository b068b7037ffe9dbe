/**
 * Hand-landmark normalisation, shared by the live detector (script.js,
 * `normalizeHand`) and the trainer (trainer.js, `normalize`/`extract`): the
 * two files carry the same code.  Coordinates are exact reals and the square
 * root is an injected function, so only the shape of the feature vector, the
 * point order, the translation to the wrist and the scale fallback are modelled.
 */
module Landmarks {

  datatype Point = Point(x: real, y: real, z: real)

  const PointsPerHand := 21
  const WristIndex := 0
  const MiddleMcpIndex := 9
  const FeaturesPerHand := 3 * PointsPerHand

  /** A hand as the landmark provider delivers it: 21 points. */
  type Hand = lm: seq<Point> | |lm| == 21 witness seq(21, _ => Point(0.0, 0.0, 0.0))

  function SquaredDistance(a: Point, b: Point): real {
    (b.x - a.x) * (b.x - a.x) + (b.y - a.y) * (b.y - a.y) + (b.z - a.z) * (b.z - a.z)
  }

  /** The `|| 1` fallback: a zero distance becomes 1, any other is kept. */
  function ScaleOrOne(d: real): (s: real)
    ensures s != 0.0
    ensures d != 0.0 ==> s == d
  {
    if d == 0.0 then 1.0 else d
  }

  /** Wrist-to-middle-MCP distance, falling back to 1 when it is zero. */
  function HandScale(lm: Hand, sqrt: real -> real): (s: real)
    ensures s != 0.0
  {
    ScaleOrOne(sqrt(SquaredDistance(lm[WristIndex], lm[MiddleMcpIndex])))
  }

  /** One point relative to the wrist, divided by the scale, as x, y, z. */
  function Triple(p: Point, w: Point, s: real): seq<real>
    requires s != 0.0
  {
    [(p.x - w.x) / s, (p.y - w.y) / s, (p.z - w.z) / s]
  }

  /** The features of the first n points, in point order. */
  function NormalizedPrefix(lm: Hand, s: real, n: nat): seq<real>
    requires s != 0.0 && n <= PointsPerHand
  {
    if n == 0 then [] else NormalizedPrefix(lm, s, n - 1) + Triple(lm[n - 1], lm[WristIndex], s)
  }

  /** The feature vector of a hand for a given (non-zero) scale. */
  function Normalized(lm: Hand, s: real): seq<real>
    requires s != 0.0
  {
    NormalizedPrefix(lm, s, PointsPerHand)
  }

  /** The feature vector with the hand's own scale. */
  function NormalizedHand(lm: Hand, sqrt: real -> real): seq<real> {
    Normalized(lm, HandScale(lm, sqrt))
  }

  lemma {:induction false} NormalizedPrefixAt(lm: Hand, s: real, n: nat, i: nat)
    requires s != 0.0 && n <= PointsPerHand && i < n
    ensures |NormalizedPrefix(lm, s, n)| == 3 * n
    ensures NormalizedPrefix(lm, s, n)[3 * i .. 3 * i + 3] == Triple(lm[i], lm[WristIndex], s)
  {
    NormalizedPrefixLength(lm, s, n - 1);
    if i < n - 1 {
      NormalizedPrefixAt(lm, s, n - 1, i);
      var p := NormalizedPrefix(lm, s, n - 1);
      assert NormalizedPrefix(lm, s, n)[3 * i .. 3 * i + 3] == p[3 * i .. 3 * i + 3];
    } else {
      assert NormalizedPrefix(lm, s, n)[3 * i .. 3 * i + 3] == Triple(lm[i], lm[WristIndex], s);
    }
  }

  lemma {:induction false} NormalizedPrefixLength(lm: Hand, s: real, n: nat)
    requires s != 0.0 && n <= PointsPerHand
    ensures |NormalizedPrefix(lm, s, n)| == 3 * n
  {
    if n > 0 { NormalizedPrefixLength(lm, s, n - 1); }
  }

  /**
   * The vector has 63 entries; entries 3i, 3i+1, 3i+2 are point i's x, y, z
   * relative to the wrist, divided by the scale.  So the first triple is zero.
   */
  lemma NormalizedShape(lm: Hand, s: real)
    requires s != 0.0
    ensures |Normalized(lm, s)| == FeaturesPerHand
    ensures forall i :: 0 <= i < PointsPerHand ==>
      Normalized(lm, s)[3 * i .. 3 * i + 3] == Triple(lm[i], lm[WristIndex], s)
    ensures Normalized(lm, s)[..3] == [0.0, 0.0, 0.0]
  {
    NormalizedPrefixLength(lm, s, PointsPerHand);
    forall i | 0 <= i < PointsPerHand
      ensures Normalized(lm, s)[3 * i .. 3 * i + 3] == Triple(lm[i], lm[WristIndex], s)
    {
      NormalizedPrefixAt(lm, s, PointsPerHand, i);
    }
    NormalizedPrefixAt(lm, s, PointsPerHand, 0);
  }

  /** `normalizeHand` / `normalize`: the loop that pushes x, y, z per point. */
  method NormalizeHand(lm: Hand, sqrt: real -> real) returns (out: seq<real>)
    ensures out == NormalizedHand(lm, sqrt)
  {
    var w := lm[WristIndex];
    var mcp := lm[MiddleMcpIndex];
    var d := sqrt(SquaredDistance(w, mcp));
    var scale := if d == 0.0 then 1.0 else d;
    out := [];
    for i := 0 to PointsPerHand
      invariant out == NormalizedPrefix(lm, scale, i)
    {
      out := out + [(lm[i].x - w.x) / scale];
      out := out + [(lm[i].y - w.y) / scale];
      out := out + [(lm[i].z - w.z) / scale];
    }
  }

  /** `extract`: both hands' vectors, right hand first (126 values). */
  function Extract(right: Hand, left: Hand, sqrt: real -> real): (r: seq<real>)
    ensures |r| == 2 * FeaturesPerHand
    ensures r[..FeaturesPerHand] == NormalizedHand(right, sqrt)
    ensures r[FeaturesPerHand..] == NormalizedHand(left, sqrt)
  {
    NormalizedShape(right, HandScale(right, sqrt));
    NormalizedShape(left, HandScale(left, sqrt));
    NormalizedHand(right, sqrt) + NormalizedHand(left, sqrt)
  }

  /** Every point moved by the same vector. */
  function Translate(lm: Hand, v: Point): Hand {
    seq(PointsPerHand, i requires 0 <= i < PointsPerHand =>
      Point(lm[i].x + v.x, lm[i].y + v.y, lm[i].z + v.z))
  }

  /** The point p moved away from w by the factor k. */
  function ScalePoint(w: Point, p: Point, k: real): Point {
    Point(w.x + k * (p.x - w.x), w.y + k * (p.y - w.y), w.z + k * (p.z - w.z))
  }

  /** Every point moved away from the wrist by the factor k. */
  function ScaleAboutWrist(lm: Hand, k: real): Hand {
    seq(PointsPerHand, i requires 0 <= i < PointsPerHand => ScalePoint(lm[WristIndex], lm[i], k))
  }

  lemma {:induction false} TranslatePrefix(lm: Hand, v: Point, s: real, n: nat)
    requires s != 0.0 && n <= PointsPerHand
    ensures NormalizedPrefix(Translate(lm, v), s, n) == NormalizedPrefix(lm, s, n)
  {
    if n > 0 {
      TranslatePrefix(lm, v, s, n - 1);
      var t := Translate(lm, v);
      assert Triple(t[n - 1], t[WristIndex], s) == Triple(lm[n - 1], lm[WristIndex], s);
    }
  }

  /** Translation invariance: moving the whole hand does not change its features. */
  lemma TranslationInvariant(lm: Hand, v: Point, sqrt: real -> real)
    ensures NormalizedHand(Translate(lm, v), sqrt) == NormalizedHand(lm, sqrt)
  {
    var t := Translate(lm, v);
    assert SquaredDistance(t[WristIndex], t[MiddleMcpIndex])
        == SquaredDistance(lm[WristIndex], lm[MiddleMcpIndex]);
    TranslatePrefix(lm, v, HandScale(lm, sqrt), PointsPerHand);
  }

  lemma NonZeroProduct(k: real, d: real)
    requires k > 0.0 && d != 0.0
    ensures k * d != 0.0
  {
  }

  lemma ScaledCoordinate(a: real, k: real, s: real)
    requires k > 0.0 && s != 0.0
    ensures (k * a) / (k * s) == a / s
  {
    assert (k * a) / (k * s) * (k * s) == k * a;
  }

  lemma ScaledDistance(w: Point, m: Point, k: real)
    ensures SquaredDistance(w, ScalePoint(w, m, k)) == k * k * SquaredDistance(w, m)
  {
    var q := ScalePoint(w, m, k);
    var a, b, c := m.x - w.x, m.y - w.y, m.z - w.z;
    assert q.x - w.x == k * a && q.y - w.y == k * b && q.z - w.z == k * c;
    assert (k * a) * (k * a) == k * k * (a * a);
    assert (k * b) * (k * b) == k * k * (b * b);
    assert (k * c) * (k * c) == k * k * (c * c);
  }

  lemma ScaledTriple(w: Point, p: Point, k: real, s: real)
    requires k > 0.0 && s != 0.0
    ensures Triple(ScalePoint(w, p, k), w, k * s) == Triple(p, w, s)
  {
    var q := ScalePoint(w, p, k);
    ScaledOffset(w.x, p.x, q.x, k, s);
    ScaledOffset(w.y, p.y, q.y, k, s);
    ScaledOffset(w.z, p.z, q.z, k, s);
  }

  lemma ScaledOffset(w: real, p: real, q: real, k: real, s: real)
    requires k > 0.0 && s != 0.0 && q == w + k * (p - w)
    ensures (q - w) / (k * s) == (p - w) / s
  {
    var a := p - w;
    assert q - w == k * a;
    ScaledCoordinate(a, k, s);
  }

  lemma {:induction false} ScalePrefix(lm: Hand, k: real, s: real, n: nat)
    requires k > 0.0 && s != 0.0 && n <= PointsPerHand
    ensures NormalizedPrefix(ScaleAboutWrist(lm, k), k * s, n) == NormalizedPrefix(lm, s, n)
  {
    if n > 0 {
      ScalePrefix(lm, k, s, n - 1);
      var t := ScaleAboutWrist(lm, k);
      var p, w := lm[n - 1], lm[WristIndex];
      assert t[WristIndex] == ScalePoint(w, w, k) == w;
      assert t[n - 1] == ScalePoint(w, p, k);
      ScaledTriple(w, p, k, s);
    }
  }

  /** The injected square root is the exact non-negative square root. */
  ghost predicate ExactSqrt(sqrt: real -> real) {
    forall x :: x >= 0.0 ==> sqrt(x) >= 0.0 && sqrt(x) * sqrt(x) == x
  }

  lemma SquaredDistanceNonNegative(a: Point, b: Point)
    ensures SquaredDistance(a, b) >= 0.0
  {
  }

  lemma SquareGrows(a: real, b: real)
    requires 0.0 <= b < a
    ensures b * b < a * a
  {
    var d, e := a - b, a + b;
    assert d > 0.0 && e > 0.0;
    assert d * e > 0.0;
    assert d * e == a * a - b * b;
  }

  /** A non-zero value scaled by k != 1 changes. */
  lemma ScaledDiffers(k: real, x: real, p: real, q: real)
    requires k != 1.0 && x != 0.0 && p == x && q == k * x
    ensures p != q
  {
    assert (k * x) / x == k;
  }

  /** Two non-negative reals with the same square are equal. */
  lemma SquareRootUnique(a: real, b: real)
    requires a >= 0.0 && b >= 0.0 && a * a == b * b
    ensures a == b
  {
    if a < b {
      SquareGrows(b, a);
    } else if b < a {
      SquareGrows(a, b);
    }
  }

  /** An exact square root scales: the root of k²d is k times the root of d. */
  lemma {:induction false} SqrtScales(sqrt: real -> real, k: real, d: real)
    requires ExactSqrt(sqrt) && k > 0.0 && d >= 0.0
    ensures sqrt(k * k * d) == k * sqrt(d)
  {
    var r := sqrt(d);
    assert r >= 0.0 && r * r == d;
    assert k * k * d >= 0.0;
    var q := sqrt(k * k * d);
    assert q >= 0.0 && q * q == k * k * d;
    assert (k * r) * (k * r) == k * k * (r * r);
    SquareRootUnique(q, k * r);
  }

  /**
   * Scale invariance: scaling about the wrist by k > 0 leaves the features
   * unchanged when the square root is exact and the wrist and middle knuckle
   * are apart.  When they coincide the `|| 1` fallback fixes the scale at 1,
   * which does not grow with the hand, so such a hand is not scale invariant
   * (`DegenerateHandNotScaleInvariant`).
   */
  lemma ScaleInvariant(lm: Hand, k: real, sqrt: real -> real)
    requires ExactSqrt(sqrt) && k > 0.0
    requires SquaredDistance(lm[WristIndex], lm[MiddleMcpIndex]) != 0.0
    ensures NormalizedHand(ScaleAboutWrist(lm, k), sqrt) == NormalizedHand(lm, sqrt)
  {
    var d2 := SquaredDistance(lm[WristIndex], lm[MiddleMcpIndex]);
    SquaredDistanceNonNegative(lm[WristIndex], lm[MiddleMcpIndex]);
    SqrtScales(sqrt, k, d2);
    var d := sqrt(d2);
    assert d * d == d2;
    assert d != 0.0;
    ScaledDistance(lm[WristIndex], lm[MiddleMcpIndex], k);
    var t := ScaleAboutWrist(lm, k);
    assert t[WristIndex] == ScalePoint(lm[WristIndex], lm[WristIndex], k) == lm[WristIndex];
    assert t[MiddleMcpIndex] == ScalePoint(lm[WristIndex], lm[MiddleMcpIndex], k);
    var dd := SquaredDistance(t[WristIndex], t[MiddleMcpIndex]);
    assert dd == k * k * d2;
    assert sqrt(dd) == k * d;
    assert k * d != 0.0 by { NonZeroProduct(k, d); }
    assert HandScale(t, sqrt) == k * d;
    assert HandScale(lm, sqrt) == d;
    ScalePrefix(lm, k, d, PointsPerHand);
    assert NormalizedHand(t, sqrt) == NormalizedPrefix(t, k * d, PointsPerHand);
  }

  /** Entry 3i of the vector is point i's x relative to the wrist, over the scale. */
  lemma NormalizedX(lm: Hand, s: real, i: nat)
    requires s != 0.0 && i < PointsPerHand
    ensures 3 * i < |Normalized(lm, s)| && Normalized(lm, s)[3 * i] == (lm[i].x - lm[WristIndex].x) / s
  {
    NormalizedPrefixAt(lm, s, PointsPerHand, i);
    assert Normalized(lm, s)[3 * i] == Normalized(lm, s)[3 * i .. 3 * i + 3][0];
  }

  /** With the middle knuckle on the wrist, the hand and every scaled copy have scale 1. */
  lemma DegenerateScale(lm: Hand, k: real, sqrt: real -> real)
    requires ExactSqrt(sqrt) && lm[MiddleMcpIndex] == lm[WristIndex]
    ensures HandScale(lm, sqrt) == 1.0 && HandScale(ScaleAboutWrist(lm, k), sqrt) == 1.0
    ensures ScaleAboutWrist(lm, k)[WristIndex] == lm[WristIndex]
  {
    var w := lm[WristIndex];
    var t := ScaleAboutWrist(lm, k);
    assert sqrt(0.0) >= 0.0 && sqrt(0.0) * sqrt(0.0) == 0.0 * 0.0;
    SquareRootUnique(sqrt(0.0), 0.0);
    assert SquaredDistance(w, lm[MiddleMcpIndex]) == 0.0;
    assert t[WristIndex] == ScalePoint(w, w, k) == w;
    assert t[MiddleMcpIndex] == ScalePoint(w, w, k) == w;
  }

  /**
   * A hand whose middle knuckle sits on the wrist keeps scale 1 whatever its
   * size, so scaling it by k != 1 scales its features too: whenever point 1
   * is off the wrist in x, the vector changes.
   */
  lemma DegenerateHandNotScaleInvariant(lm: Hand, k: real, sqrt: real -> real)
    requires ExactSqrt(sqrt) && k > 0.0 && k != 1.0
    requires lm[MiddleMcpIndex] == lm[WristIndex] && lm[1].x != lm[WristIndex].x
    ensures NormalizedHand(ScaleAboutWrist(lm, k), sqrt) != NormalizedHand(lm, sqrt)
  {
    var w := lm[WristIndex];
    var t := ScaleAboutWrist(lm, k);
    DegenerateScale(lm, k, sqrt);
    NormalizedX(lm, 1.0, 1);
    NormalizedX(t, 1.0, 1);
    var x := lm[1].x - w.x;
    assert t[1].x - w.x == k * x;
    ScaledDiffers(k, x, NormalizedHand(lm, sqrt)[3], NormalizedHand(t, sqrt)[3]);
  }
}
