/**
 * Tiling: `imageToSquareCanvas` centre-crops the photo to a square, and
 * `splitIntoPieces` cuts the square canvas into `rows x cols` tiles, building one
 * record per tile in raster order with `id = row * cols + col`.
 *
 * Only the records are modelled: the drawing of each tile is abstracted to a
 * `TileImage` naming the canvas region it was cut from.
 */
module Tiling {
  import opened Arith

  /** The bitmap of one tile, identified by the region of the canvas it shows. */
  datatype TileImage = TileImage(row: int, col: int)

  /** A puzzle piece as `splitIntoPieces` builds it. */
  datatype Piece = Piece(
    id: int,
    correctRow: int,
    correctCol: int,
    currentRow: int,
    currentCol: int,
    image: TileImage,
    isPlaced: bool)

  /** The centre crop: the side of the square and the offsets of its top-left corner. */
  datatype Crop = Crop(minSize: int, sourceX: real, sourceY: real)

  /**
   * The crop of `imageToSquareCanvas`: a square as large as the shorter side,
   * with equal margins cut from both ends of the longer side.
   */
  function CenterCrop(width: nat, height: nat): (c: Crop)
    ensures c.minSize <= width && c.minSize <= height
    ensures c.minSize == width || c.minSize == height
    ensures c.sourceX >= 0.0 && c.sourceY >= 0.0
    ensures c.sourceX == 0.0 || c.sourceY == 0.0
    ensures c.sourceX + c.minSize as real + c.sourceX == width as real
    ensures c.sourceY + c.minSize as real + c.sourceY == height as real
  {
    var minSize := if width < height then width else height;
    Crop(minSize, (width - minSize) as real / 2.0, (height - minSize) as real / 2.0)
  }

  /** The number of records the nested loops produce. */
  function TileCount(rows: int, cols: int): nat {
    if rows > 0 && cols > 0 then rows * cols else 0
  }

  /** The record of the tile with raster index `i`. */
  function PieceAt(i: nat, cols: int): Piece
    requires cols > 0
  {
    var row, col := i / cols, i % cols;
    Piece(i, row, col, row, col, TileImage(row, col), false)
  }

  /** The raster index `row * cols + col` decomposes back into `row` and `col`. */
  lemma RasterIndex(row: int, col: int, cols: int)
    requires row >= 0 && 0 <= col < cols
    ensures 0 <= row * cols + col
    ensures (row * cols + col) / cols == row && (row * cols + col) % cols == col
  {
    DivModUnique(row * cols + col, cols, row, col);
  }

  /** A raster index below `rows * cols` has its row below `rows`. */
  lemma RasterRowBound(i: int, rows: int, cols: int)
    requires cols > 0 && 0 <= i < rows * cols
    ensures 0 <= i / cols < rows
  {
  }

  /**
   * The records are the tiles of a `rows x cols` grid in raster order: each has the
   * id of its index, a correct position on the grid from which its id is recovered,
   * a current position equal to the correct one, and is not placed.
   */
  ghost predicate IsRasterTiling(pieces: seq<Piece>, rows: int, cols: int) {
    && |pieces| == TileCount(rows, cols)
    && (forall i :: 0 <= i < |pieces| ==>
          && pieces[i].id == i
          && 0 <= pieces[i].correctRow < rows && 0 <= pieces[i].correctCol < cols
          && pieces[i].id == pieces[i].correctRow * cols + pieces[i].correctCol
          && pieces[i].currentRow == pieces[i].correctRow
          && pieces[i].currentCol == pieces[i].correctCol
          && pieces[i].image == TileImage(pieces[i].correctRow, pieces[i].correctCol)
          && !pieces[i].isPlaced)
  }

  /** Every cell of the grid is the correct position of the record at its raster index. */
  lemma {:induction false} RasterTilingCoversGrid(pieces: seq<Piece>, rows: int, cols: int, row: int, col: int)
    requires IsRasterTiling(pieces, rows, cols)
    requires 0 <= row < rows && 0 <= col < cols
    ensures 0 <= row * cols + col < |pieces|
    ensures pieces[row * cols + col].correctRow == row && pieces[row * cols + col].correctCol == col
  {
    RasterIndex(row, col, cols);
    var i := row * cols + col;
    assert i < rows * cols by {
      MulMonotone(row + 1, rows, cols);
      assert (row + 1) * cols == i - col + cols;
    }
    assert |pieces| == rows * cols;
    var p := pieces[i];
    RasterIndex(p.correctRow, p.correctCol, cols);
  }

  /** Distinct records have distinct correct positions. */
  lemma RasterTilingInjective(pieces: seq<Piece>, rows: int, cols: int, i: int, j: int)
    requires IsRasterTiling(pieces, rows, cols)
    requires 0 <= i < |pieces| && 0 <= j < |pieces| && i != j
    ensures (pieces[i].correctRow, pieces[i].correctCol) != (pieces[j].correctRow, pieces[j].correctCol)
  {
  }

  /** The records `PieceAt(0), PieceAt(1), ..` of a whole grid form its raster tiling. */
  lemma PiecesAtTile(pieces: seq<Piece>, rows: int, cols: int)
    requires cols > 0 && |pieces| == TileCount(rows, cols)
    requires forall i :: 0 <= i < |pieces| ==> pieces[i] == PieceAt(i, cols)
    ensures IsRasterTiling(pieces, rows, cols)
  {
    forall i | 0 <= i < |pieces|
      ensures 0 <= pieces[i].correctRow < rows
      ensures pieces[i].id == pieces[i].correctRow * cols + pieces[i].correctCol
    {
      RasterRowBound(i, rows, cols);
    }
  }

  /** The nested loops of `splitIntoPieces`, without the drawing. */
  method SplitIntoPieces(rows: int, cols: int) returns (pieces: seq<Piece>)
    ensures IsRasterTiling(pieces, rows, cols)
    ensures cols > 0 ==> forall i :: 0 <= i < |pieces| ==> pieces[i] == PieceAt(i, cols)
  {
    pieces := [];
    var row := 0;
    while row < rows
      invariant 0 <= row <= if rows > 0 then rows else 0
      invariant |pieces| == if cols > 0 then row * cols else 0
      invariant cols > 0 ==> forall i :: 0 <= i < |pieces| ==> pieces[i] == PieceAt(i, cols)
    {
      var col := 0;
      while col < cols
        invariant 0 <= col <= if cols > 0 then cols else 0
        invariant |pieces| == if cols > 0 then row * cols + col else 0
        invariant cols > 0 ==> forall i :: 0 <= i < |pieces| ==> pieces[i] == PieceAt(i, cols)
      {
        var piece := Piece(row * cols + col, row, col, row, col, TileImage(row, col), false);
        assert piece == PieceAt(|pieces|, cols) by {
          RasterIndex(row, col, cols);
        }
        pieces := pieces + [piece];
        col := col + 1;
      }
      if cols > 0 {
        assert (row + 1) * cols == row * cols + cols;
      }
      row := row + 1;
    }
    if cols > 0 {
      PiecesAtTile(pieces, rows, cols);
    }
  }
}
