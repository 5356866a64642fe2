/**
 * Texture coordinates. Every cell of a grid shows its own sub-rectangle of
 * the grid's shared video texture: the geometry's UV array, whose entries
 * start in [0, 1], is rewritten in place so that every vertex lands inside
 * the rectangle of the cell's lattice position. Those rectangles tile the
 * unit square.
 */
module Uv {

  import opened Arith

  /** An axis-aligned rectangle of texture space, from (u0, v0) to (u1, v1). */
  datatype Rect = Rect(u0: real, v0: real, u1: real, v1: real)

  /** i / n, as the source's `x / gridWidth`, over the reals. */
  function Frac(i: nat, n: nat): real
    requires n > 0
  {
    i as real / n as real
  }

  /** The texture rectangle of lattice position (x, y) on a width x height lattice. */
  function CellRect(x: nat, y: nat, width: nat, height: nat): (r: Rect)
    requires x < width && y < height
    ensures 0.0 <= r.u0 < r.u1 <= 1.0
    ensures 0.0 <= r.v0 < r.v1 <= 1.0
  {
    FracStep(x, width);
    FracStep(y, height);
    Rect(Frac(x, width), Frac(y, height), Frac(x + 1, width), Frac(y + 1, height))
  }

  lemma FracStep(i: nat, n: nat)
    requires i < n
    ensures 0.0 <= Frac(i, n) < Frac(i + 1, n) <= 1.0
    ensures Frac(i + 1, n) == Frac(i, n) + Frac(1, n)
  {
    LtDiv(Frac(i, n), (i + 1) as real, n as real);
    DivLe((i + 1) as real, 1.0, n as real);
    LeDiv(0.0, i as real, n as real);
  }

  /** Contains the point with its lower and left edges, not its upper and right ones. */
  predicate HalfOpenContains(r: Rect, p: real, q: real)
  {
    r.u0 <= p < r.u1 && r.v0 <= q < r.v1
  }

  predicate InteriorContains(r: Rect, p: real, q: real)
  {
    r.u0 < p < r.u1 && r.v0 < q < r.v1
  }

  /**
   * The UV array after the rewrite loop with offset (u0, v0) and cell size
   * (du, dv): entries alternate U, V, and each U becomes u0 + u * du, each V
   * v0 + v * dv.
   */
  function Remap(s: seq<real>, u0: real, v0: real, du: real, dv: real): (r: seq<real>)
    ensures |r| == |s|
    ensures UnitEntries(s) && du >= 0.0 && dv >= 0.0 ==> VerticesIn(r, Rect(u0, v0, u0 + du, v0 + dv))
  {
    var t := seq(|s|, k requires 0 <= k < |s| => RemapEntry(s[k], k, u0, v0, du, dv));
    if UnitEntries(s) && du >= 0.0 && dv >= 0.0 then
      ScaledEntries(s, t, u0, v0, du, dv);
      t
    else
      t
  }

  /** Entry k of the rewritten array, from its old value x. */
  function RemapEntry(x: real, k: nat, u0: real, v0: real, du: real, dv: real): real
  {
    if k % 2 == 0 then u0 + x * du else v0 + x * dv
  }

  /** Scaling unit entries by non-negative sizes keeps each U and V inside its interval. */
  lemma ScaledEntries(s: seq<real>, t: seq<real>, u0: real, v0: real, du: real, dv: real)
    requires UnitEntries(s) && du >= 0.0 && dv >= 0.0 && |t| == |s|
    requires forall k :: 0 <= k < |s| ==> t[k] == RemapEntry(s[k], k, u0, v0, du, dv)
    ensures VerticesIn(t, Rect(u0, v0, u0 + du, v0 + dv))
  {
    forall k | 0 <= k < |t|
      ensures k % 2 == 0 ==> u0 <= t[k] <= u0 + du
      ensures k % 2 == 1 ==> v0 <= t[k] <= v0 + dv
    {
      if k % 2 == 0 {
        AffineWithin(u0, s[k], du);
      } else {
        AffineWithin(v0, s[k], dv);
      }
    }
  }

  lemma AffineWithin(a: real, t: real, d: real)
    requires 0.0 <= t <= 1.0 && d >= 0.0
    ensures a <= a + t * d <= a + d
  {
    ScaledWithin(t, d);
  }

  /**
   * The source's loop over the geometry's UV array, stepping two entries at a
   * time. On an odd-length array the last V write falls outside the typed
   * array, which JavaScript ignores.
   */
  method RemapInPlace(uv: array<real>, u0: real, v0: real, du: real, dv: real)
    modifies uv
    ensures uv[..] == Remap(old(uv[..]), u0, v0, du, dv)
  {
    var i := 0;
    while i < uv.Length
      invariant 0 <= i <= uv.Length + 1 && i % 2 == 0
      invariant forall k :: 0 <= k < i && k < uv.Length ==> uv[k] == RemapEntry(old(uv[k]), k, u0, v0, du, dv)
      invariant forall k :: i <= k < uv.Length ==> uv[k] == old(uv[k])
    {
      uv[i] := u0 + uv[i] * du;
      if i + 1 < uv.Length {
        uv[i + 1] := v0 + uv[i + 1] * dv;
      }
      i := i + 2;
    }
    assert forall k :: 0 <= k < uv.Length ==> uv[..][k] == Remap(old(uv[..]), u0, v0, du, dv)[k];
  }

  /** Every entry lies in [0, 1], as a fresh geometry's UVs do. */
  predicate UnitEntries(s: seq<real>)
  {
    forall k :: 0 <= k < |s| ==> 0.0 <= s[k] <= 1.0
  }

  /** Every U of r (even index) lies in [u0, u1] and every V (odd index) in [v0, v1]. */
  predicate VerticesIn(r: seq<real>, rect: Rect)
  {
    forall k :: 0 <= k < |r| ==>
      if k % 2 == 0 then rect.u0 <= r[k] <= rect.u1 else rect.v0 <= r[k] <= rect.v1
  }

  /**
   * Remapped for cell (x, y), every vertex (u, v) of the geometry becomes
   * (x / width + u / width, y / height + v / height), a point of the cell's
   * rectangle.
   */
  lemma {:induction false} RemapInCell(s: seq<real>, x: nat, y: nat, width: nat, height: nat)
    requires UnitEntries(s) && x < width && y < height
    ensures |Remap(s, Frac(x, width), Frac(y, height), Frac(1, width), Frac(1, height))| == |s|
    ensures VerticesIn(Remap(s, Frac(x, width), Frac(y, height), Frac(1, width), Frac(1, height)), CellRect(x, y, width, height))
  {
    FracStep(x, width);
    FracStep(y, height);
    assert CellRect(x, y, width, height) == Rect(Frac(x, width), Frac(y, height), Frac(x, width) + Frac(1, width), Frac(y, height) + Frac(1, height));
  }

  lemma ScaledWithin(t: real, d: real)
    requires 0.0 <= t <= 1.0 && d >= 0.0
    ensures 0.0 <= t * d <= d
  {
    assert (1.0 - t) * d >= 0.0;
  }

  /** The lattice column (or row) of n that holds the coordinate p of [0, 1). */
  function CellOf(p: real, n: nat): (c: nat)
    requires 0.0 <= p < 1.0 && n > 0
    ensures c < n && Frac(c, n) <= p < Frac(c + 1, n)
  {
    var c := (p * n as real).Floor;
    assert 0.0 <= p * n as real < n as real by {
      ScaledWithin(p, n as real);
      assert (1.0 - p) * n as real > 0.0;
    }
    DivLe(c as real, p, n as real);
    LtDiv(p, (c + 1) as real, n as real);
    c
  }

  /**
   * The half-open cell rectangles partition [0, 1) x [0, 1): a point lies in
   * the rectangle of (x, y) exactly when x and y are its column and row.
   */
  lemma {:induction false} LatticePartition(x: nat, y: nat, width: nat, height: nat, p: real, q: real)
    requires x < width && y < height
    requires 0.0 <= p < 1.0 && 0.0 <= q < 1.0
    ensures HalfOpenContains(CellRect(x, y, width, height), p, q) <==> x == CellOf(p, width) && y == CellOf(q, height)
  {
    OnlyColumn(x, width, p);
    OnlyColumn(y, height, q);
  }

  lemma OnlyColumn(x: nat, n: nat, p: real)
    requires x < n && 0.0 <= p < 1.0
    ensures Frac(x, n) <= p < Frac(x + 1, n) <==> x == CellOf(p, n)
  {
    DivLe(x as real, p, n as real);
    LtDiv(p, (x + 1) as real, n as real);
  }

  /** Rectangles of distinct lattice cells share no interior point. */
  lemma {:induction false} CellInteriorsDisjoint(x: nat, y: nat, x': nat, y': nat, width: nat, height: nat, p: real, q: real)
    requires x < width && y < height && x' < width && y' < height
    requires x != x' || y != y'
    ensures !(InteriorContains(CellRect(x, y, width, height), p, q) && InteriorContains(CellRect(x', y', width, height), p, q))
  {
    if x != x' {
      OpenIntervalsDisjoint(x, x', width, p);
    } else {
      OpenIntervalsDisjoint(y, y', height, q);
    }
  }

  lemma OpenIntervalsDisjoint(i: nat, j: nat, n: nat, p: real)
    requires i < n && j < n && i != j
    ensures !(Frac(i, n) < p < Frac(i + 1, n) && Frac(j, n) < p < Frac(j + 1, n))
  {
    DivLt(i as real, p, n as real);
    LtDiv(p, (i + 1) as real, n as real);
    DivLt(j as real, p, n as real);
    LtDiv(p, (j + 1) as real, n as real);
  }
}
