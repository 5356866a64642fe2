/**
 * Grid building: one box per dark lattice position of a sampled mask, in the
 * order the source's nested loops visit them (x outer, y inner), each with
 * its own texture rectangle and a position on a lattice centred on the origin.
 */
module GridBuilder {

  import opened Arith
  import opened Mask
  import opened Uv

  /** Distance between neighbouring boxes, in world units. */
  const Spacing: real := 0.75

  /**
   * One box mesh: its lattice position, the vertex UVs of its geometry after
   * the rewrite, its position (px, py, pz) and its uniform scale.
   */
  datatype Cube = Cube(col: nat, row: nat, uvs: seq<real>, px: real, py: real, pz: real, scale: real)

  /** World offset of lattice index i on a side of n cells. */
  function Offset(i: nat, n: nat): (r: real)
    ensures i < n ==> -((n as real - 1.0) / 2.0 * Spacing) <= r <= (n as real - 1.0) / 2.0 * Spacing
  {
    (i as real - (n as real - 1.0) / 2.0) * Spacing
  }

  /** The lattice is centred: index i and its mirror n - 1 - i sit at opposite offsets. */
  lemma OffsetMirror(i: nat, n: nat)
    requires i < n
    ensures Offset(n - 1 - i, n) == -Offset(i, n)
  {
  }

  /** Neighbouring indices are one spacing apart. */
  lemma OffsetStep(i: nat, n: nat)
    ensures Offset(i + 1, n) == Offset(i, n) + Spacing
  {
  }

  /** The box created for dark lattice position (x, y). */
  function NewCube(x: nat, y: nat, width: nat, height: nat, boxUV: seq<real>): (c: Cube)
    requires x < width && y < height
    ensures c.col == x && c.row == y && c.pz == 0.0 && c.scale == 1.0 && |c.uvs| == |boxUV|
    ensures UnitEntries(boxUV) ==> VerticesIn(c.uvs, CellRect(x, y, width, height))
  {
    FracStep(x, width);
    FracStep(y, height);
    Cube(x, y, Remap(boxUV, Frac(x, width), Frac(y, height), Frac(1, width), Frac(1, height)),
         Offset(x, width), Offset(y, height), 0.0, 1.0)
  }

  /** The boxes of column x from rows 0 .. rows - 1, in row order. */
  function ColumnCubes(data: seq<Byte>, width: nat, height: nat, boxUV: seq<real>, x: nat, rows: nat): (r: seq<Cube>)
    requires |data| == Channels * width * height
    requires x < width && rows <= height
    ensures |r| <= rows && Within(r, x, x + 1, rows)
  {
    if rows == 0 then []
    else
      ColumnCubes(data, width, height, boxUV, x, rows - 1) +
      (if DarkAt(data, width, height, x, rows - 1) then [NewCube(x, rows - 1, width, height, boxUV)] else [])
  }

  /** The boxes of columns 0 .. cols - 1, column after column. */
  function GridCubes(data: seq<Byte>, width: nat, height: nat, boxUV: seq<real>, cols: nat): (r: seq<Cube>)
    requires |data| == Channels * width * height
    requires cols <= width
    ensures Within(r, 0, cols, height)
  {
    if cols == 0 then []
    else GridCubes(data, width, height, boxUV, cols - 1) + ColumnCubes(data, width, height, boxUV, cols - 1, height)
  }

  /** The boxes of a whole width x height mask. */
  function AllCubes(data: seq<Byte>, width: nat, height: nat, boxUV: seq<real>): (r: seq<Cube>)
    requires |data| == Channels * width * height
    ensures Within(r, 0, width, height)
  {
    GridCubes(data, width, height, boxUV, width)
  }

  /**
   * The nested loops of grid creation: for every column x and every row y,
   * read the pixel of the vertically flipped row and, when its brightness is
   * below the threshold, create a box whose UV array is rewritten in place.
   * `boxUV` is the UV array a fresh box geometry comes with.
   */
  method BuildGrid(data: seq<Byte>, width: nat, height: nat, boxUV: seq<real>) returns (cubes: seq<Cube>)
    requires |data| == Channels * width * height
    ensures cubes == AllCubes(data, width, height, boxUV)
  {
    cubes := [];
    var x := 0;
    while x < width
      invariant x <= width
      invariant cubes == GridCubes(data, width, height, boxUV, x)
    {
      var y := 0;
      while y < height
        invariant y <= height
        invariant cubes == GridCubes(data, width, height, boxUV, x) + ColumnCubes(data, width, height, boxUV, x, y)
      {
        var flippedY := height - 1 - y;
        var pixelIndex := (flippedY * width + x) * Channels;
        assert pixelIndex == PixelIndex(x, y, width, height);
        var r, g, b := data[pixelIndex], data[pixelIndex + 1], data[pixelIndex + 2];
        var sum := r as int + g as int + b as int;
        var brightness := sum as real / 3.0;
        assert brightness < Threshold <==> DarkAt(data, width, height, x, y);
        if brightness < Threshold {
          var uvs := CellUV(boxUV, x, y, width, height);
          cubes := cubes + [Cube(x, y, uvs, Offset(x, width), Offset(y, height), 0.0, 1.0)];
        }
        y := y + 1;
      }
      x := x + 1;
    }
  }

  /**
   * A fresh box geometry's UV array, rewritten in place to show cell (x, y)
   * of a width x height lattice.
   */
  method CellUV(boxUV: seq<real>, x: nat, y: nat, width: nat, height: nat) returns (uvs: seq<real>)
    requires x < width && y < height
    ensures uvs == Remap(boxUV, Frac(x, width), Frac(y, height), Frac(1, width), Frac(1, height))
  {
    var uv := new real[|boxUV|](k requires 0 <= k < |boxUV| => boxUV[k]);
    assert uv[..] == boxUV;
    RemapInPlace(uv, Frac(x, width), Frac(y, height), Frac(1, width), Frac(1, height));
    uvs := uv[..];
  }

  /** A box that stands for a dark lattice position and is the box made for it. */
  predicate MadeFor(data: seq<Byte>, width: nat, height: nat, boxUV: seq<real>, c: Cube)
    requires |data| == Channels * width * height
  {
    c.col < width && c.row < height && DarkAt(data, width, height, c.col, c.row) &&
    c == NewCube(c.col, c.row, width, height, boxUV)
  }

  /** Every box is the one made for a dark lattice position. */
  predicate Sound(data: seq<Byte>, width: nat, height: nat, boxUV: seq<real>, cs: seq<Cube>)
    requires |data| == Channels * width * height
  {
    forall i :: 0 <= i < |cs| ==> MadeFor(data, width, height, boxUV, cs[i])
  }

  /** Every dark lattice position in columns lo .. hi - 1 and rows 0 .. rows - 1 has its box. */
  predicate CompleteIn(data: seq<Byte>, width: nat, height: nat, boxUV: seq<real>, cs: seq<Cube>, lo: nat, hi: nat, rows: nat)
    requires |data| == Channels * width * height
  {
    forall x: nat, y: nat :: lo <= x < hi && x < width && y < rows && y < height && DarkAt(data, width, height, x, y) ==>
      NewCube(x, y, width, height, boxUV) in cs
  }

  /** Every box lies in columns lo .. hi - 1 and rows 0 .. rows - 1. */
  predicate Within(cs: seq<Cube>, lo: nat, hi: nat, rows: nat)
  {
    forall i :: 0 <= i < |cs| ==> lo <= cs[i].col < hi && cs[i].row < rows
  }

  lemma {:induction false} ColumnCubesMembers(data: seq<Byte>, width: nat, height: nat, boxUV: seq<real>, x: nat, rows: nat)
    requires |data| == Channels * width * height
    requires x < width && rows <= height
    ensures Within(ColumnCubes(data, width, height, boxUV, x, rows), x, x + 1, rows)
    ensures Sound(data, width, height, boxUV, ColumnCubes(data, width, height, boxUV, x, rows))
    ensures CompleteIn(data, width, height, boxUV, ColumnCubes(data, width, height, boxUV, x, rows), x, x + 1, rows)
  {
    ColumnCubesSound(data, width, height, boxUV, x, rows);
    ColumnCubesComplete(data, width, height, boxUV, x, rows);
  }

  lemma {:induction false} ColumnCubesSound(data: seq<Byte>, width: nat, height: nat, boxUV: seq<real>, x: nat, rows: nat)
    requires |data| == Channels * width * height
    requires x < width && rows <= height
    ensures Sound(data, width, height, boxUV, ColumnCubes(data, width, height, boxUV, x, rows))
  {
    if rows > 0 {
      ColumnCubesSound(data, width, height, boxUV, x, rows - 1);
    }
  }

  lemma {:induction false} ColumnCubesComplete(data: seq<Byte>, width: nat, height: nat, boxUV: seq<real>, x: nat, rows: nat)
    requires |data| == Channels * width * height
    requires x < width && rows <= height
    ensures CompleteIn(data, width, height, boxUV, ColumnCubes(data, width, height, boxUV, x, rows), x, x + 1, rows)
  {
    if rows > 0 {
      ColumnCubesComplete(data, width, height, boxUV, x, rows - 1);
    }
  }

  lemma {:induction false} GridCubesMembers(data: seq<Byte>, width: nat, height: nat, boxUV: seq<real>, cols: nat)
    requires |data| == Channels * width * height
    requires cols <= width
    ensures Within(GridCubes(data, width, height, boxUV, cols), 0, cols, height)
    ensures Sound(data, width, height, boxUV, GridCubes(data, width, height, boxUV, cols))
    ensures CompleteIn(data, width, height, boxUV, GridCubes(data, width, height, boxUV, cols), 0, cols, height)
  {
    if cols > 0 {
      var prev := GridCubes(data, width, height, boxUV, cols - 1);
      var column := ColumnCubes(data, width, height, boxUV, cols - 1, height);
      var cs := prev + column;
      GridCubesMembers(data, width, height, boxUV, cols - 1);
      ColumnCubesMembers(data, width, height, boxUV, cols - 1, height);
      forall i | 0 <= i < |cs| ensures cs[i].col < cols && cs[i].row < height && MadeFor(data, width, height, boxUV, cs[i]) {
        if i < |prev| {
          assert cs[i] == prev[i];
        } else {
          assert cs[i] == column[i - |prev|];
        }
      }
      forall x: nat, y: nat | x < cols && y < height && DarkAt(data, width, height, x, y)
        ensures NewCube(x, y, width, height, boxUV) in cs
      {
        if x < cols - 1 {
          assert NewCube(x, y, width, height, boxUV) in prev;
        } else {
          assert NewCube(x, y, width, height, boxUV) in column;
        }
      }
    }
  }

  /**
   * A grid holds exactly the boxes of its dark lattice positions: every box
   * is the one made for a dark position, and every dark position has its box.
   */
  lemma {:induction false} AllCubesExact(data: seq<Byte>, width: nat, height: nat, boxUV: seq<real>)
    requires |data| == Channels * width * height
    ensures Sound(data, width, height, boxUV, AllCubes(data, width, height, boxUV))
    ensures CompleteIn(data, width, height, boxUV, AllCubes(data, width, height, boxUV), 0, width, height)
  {
    GridCubesMembers(data, width, height, boxUV, width);
  }

  /** Column-major order: a earlier column, or the same column and an earlier row. */
  predicate Before(a: Cube, b: Cube)
  {
    a.col < b.col || (a.col == b.col && a.row < b.row)
  }

  predicate ColumnMajor(cs: seq<Cube>)
  {
    forall i, j :: 0 <= i < j < |cs| ==> Before(cs[i], cs[j])
  }

  lemma {:induction false} ColumnCubesOrdered(data: seq<Byte>, width: nat, height: nat, boxUV: seq<real>, x: nat, rows: nat)
    requires |data| == Channels * width * height
    requires x < width && rows <= height
    ensures ColumnMajor(ColumnCubes(data, width, height, boxUV, x, rows))
  {
    if rows > 0 {
      var prev := ColumnCubes(data, width, height, boxUV, x, rows - 1);
      var cs := ColumnCubes(data, width, height, boxUV, x, rows);
      ColumnCubesOrdered(data, width, height, boxUV, x, rows - 1);
      ColumnCubesMembers(data, width, height, boxUV, x, rows - 1);
      if DarkAt(data, width, height, x, rows - 1) {
        var last := NewCube(x, rows - 1, width, height, boxUV);
        assert cs == prev + [last];
        forall i, j | 0 <= i < j < |cs| ensures Before(cs[i], cs[j]) {
          assert cs[i] == prev[i];
          if j < |prev| {
            assert cs[j] == prev[j];
          } else {
            assert cs[j] == last;
          }
        }
      } else {
        assert cs == prev;
      }
    }
  }

  /** Boxes are appended column after column, and within a column row after row. */
  lemma {:induction false} GridCubesOrdered(data: seq<Byte>, width: nat, height: nat, boxUV: seq<real>, cols: nat)
    requires |data| == Channels * width * height
    requires cols <= width
    ensures ColumnMajor(GridCubes(data, width, height, boxUV, cols))
  {
    if cols > 0 {
      var prev := GridCubes(data, width, height, boxUV, cols - 1);
      var column := ColumnCubes(data, width, height, boxUV, cols - 1, height);
      var cs := prev + column;
      GridCubesOrdered(data, width, height, boxUV, cols - 1);
      GridCubesMembers(data, width, height, boxUV, cols - 1);
      ColumnCubesOrdered(data, width, height, boxUV, cols - 1, height);
      ColumnCubesMembers(data, width, height, boxUV, cols - 1, height);
      forall i, j | 0 <= i < j < |cs| ensures Before(cs[i], cs[j]) {
        if j < |prev| {
          assert cs[i] == prev[i] && cs[j] == prev[j];
        } else if i < |prev| {
          assert cs[i] == prev[i] && cs[j] == column[j - |prev|];
        } else {
          assert cs[i] == column[i - |prev|] && cs[j] == column[j - |prev|];
        }
      }
    }
  }

  /** The dark lattice positions of a mask. */
  ghost function DarkCells(data: seq<Byte>, width: nat, height: nat): set<(nat, nat)>
    requires |data| == Channels * width * height
  {
    set x: nat, y: nat | x < width && y < height && DarkAt(data, width, height, x, y) :: (x, y)
  }

  /** The lattice positions of a sequence of boxes. */
  ghost function Positions(cs: seq<Cube>): set<(nat, nat)>
  {
    set i | 0 <= i < |cs| :: (cs[i].col, cs[i].row)
  }

  lemma {:induction false} ColumnMajorPositions(cs: seq<Cube>)
    requires ColumnMajor(cs)
    ensures |Positions(cs)| == |cs|
  {
    if cs != [] {
      var rest := cs[1..];
      assert ColumnMajor(rest) by {
        forall i, j | 0 <= i < j < |rest| ensures Before(rest[i], rest[j]) {
          assert Before(cs[i + 1], cs[j + 1]);
        }
      }
      ColumnMajorPositions(rest);
      PositionsCons(cs);
      assert (cs[0].col, cs[0].row) !in Positions(rest) by {
        forall i | 0 <= i < |rest| ensures (rest[i].col, rest[i].row) != (cs[0].col, cs[0].row) {
          assert Before(cs[0], cs[i + 1]);
        }
      }
    }
  }

  lemma PositionsCons(cs: seq<Cube>)
    requires cs != []
    ensures Positions(cs) == {(cs[0].col, cs[0].row)} + Positions(cs[1..])
  {
    var rest := cs[1..];
    forall p | p in Positions(cs) ensures p in {(cs[0].col, cs[0].row)} + Positions(rest) {
      var i :| 0 <= i < |cs| && p == (cs[i].col, cs[i].row);
      if i > 0 {
        assert p == (rest[i - 1].col, rest[i - 1].row);
      }
    }
    forall p | p in Positions(rest) ensures p in Positions(cs) {
      var i :| 0 <= i < |rest| && p == (rest[i].col, rest[i].row);
      assert p == (cs[i + 1].col, cs[i + 1].row);
    }
  }

  /** The number of boxes in a grid is the number of dark lattice positions. */
  lemma {:induction false} CubeCountIsDarkCount(data: seq<Byte>, width: nat, height: nat, boxUV: seq<real>)
    requires |data| == Channels * width * height
    ensures |AllCubes(data, width, height, boxUV)| == |DarkCells(data, width, height)|
  {
    var cs := AllCubes(data, width, height, boxUV);
    AllCubesExact(data, width, height, boxUV);
    GridCubesOrdered(data, width, height, boxUV, width);
    ColumnMajorPositions(cs);
    assert Positions(cs) == DarkCells(data, width, height) by {
      forall p | p in Positions(cs) ensures p in DarkCells(data, width, height) {
        var i :| 0 <= i < |cs| && p == (cs[i].col, cs[i].row);
        assert MadeFor(data, width, height, boxUV, cs[i]);
      }
      forall p | p in DarkCells(data, width, height) ensures p in Positions(cs) {
        var x: nat, y: nat :| x < width && y < height && DarkAt(data, width, height, x, y) && p == (x, y);
        var c := NewCube(x, y, width, height, boxUV);
        assert c in cs;
        var i :| 0 <= i < |cs| && cs[i] == c;
        assert p == (cs[i].col, cs[i].row);
      }
    }
  }

  /** Every lattice position of the mask is dark. */
  predicate AllDark(data: seq<Byte>, width: nat, height: nat)
    requires |data| == Channels * width * height
  {
    forall x: nat, y: nat :: x < width && y < height ==> DarkAt(data, width, height, x, y)
  }

  lemma {:induction false} FullColumn(data: seq<Byte>, width: nat, height: nat, boxUV: seq<real>, x: nat, rows: nat)
    requires |data| == Channels * width * height && AllDark(data, width, height)
    requires x < width && rows <= height
    ensures |ColumnCubes(data, width, height, boxUV, x, rows)| == rows
  {
    if rows > 0 {
      FullColumn(data, width, height, boxUV, x, rows - 1);
    }
  }

  /** An all-dark mask fills its whole lattice. */
  lemma {:induction false} FullGrid(data: seq<Byte>, width: nat, height: nat, boxUV: seq<real>, cols: nat)
    requires |data| == Channels * width * height && AllDark(data, width, height)
    requires cols <= width
    ensures |GridCubes(data, width, height, boxUV, cols)| == cols * height
  {
    if cols > 0 {
      var n := cols - 1;
      FullGrid(data, width, height, boxUV, n);
      FullColumn(data, width, height, boxUV, n, height);
      assert |GridCubes(data, width, height, boxUV, cols)| == n * height + height;
      MulSucc(n, height);
    }
  }

  /**
   * Every box of a grid shows its own cell's rectangle of the texture and
   * stands at its lattice offset, at depth 0 and full scale.
   */
  lemma {:induction false} CubePlacement(data: seq<Byte>, width: nat, height: nat, boxUV: seq<real>, c: Cube)
    requires |data| == Channels * width * height && UnitEntries(boxUV)
    requires c in AllCubes(data, width, height, boxUV)
    ensures c.col < width && c.row < height
    ensures |c.uvs| == |boxUV| && VerticesIn(c.uvs, CellRect(c.col, c.row, width, height))
    ensures c.px == Offset(c.col, width) && c.py == Offset(c.row, height) && c.pz == 0.0 && c.scale == 1.0
  {
    AllCubesExact(data, width, height, boxUV);
    assert MadeFor(data, width, height, boxUV, c);
    RemapInCell(boxUV, c.col, c.row, width, height);
  }

  /**
   * A 2 x 1 mask at grid size 4 gives a 4 x 2 lattice; all black, it fills
   * all 8 positions, and position (1, 0) shows [0.25, 0.5] x [0, 0.5].
   */
  lemma {:induction false} TwoByOneBlack(data: seq<Byte>, boxUV: seq<real>)
    requires |data| == 32 && forall k :: 0 <= k < |data| ==> data[k] == 0
    ensures GridDims(2, 1, 4) == Dims(4, 2)
    ensures |AllCubes(data, 4, 2, boxUV)| == 8
    ensures CellRect(1, 0, 4, 2) == Rect(0.25, 0.0, 0.5, 0.5)
  {
    assert RoundRatio(4 * 1, 2) == 2;
    assert AllDark(data, 4, 2) by {
      forall x: nat, y: nat | x < 4 && y < 2 ensures DarkAt(data, 4, 2, x, y) {
        var p := PixelIndex(x, y, 4, 2);
        assert data[p] == 0 && data[p + 1] == 0 && data[p + 2] == 0;
      }
    }
    FullGrid(data, 4, 2, boxUV, 4);
  }
}
