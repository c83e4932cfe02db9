/**
 * The board shapes the level tables lead to: the game lays out a level of `n` pieces
 * as `calculateGrid(n, 1)`, for a square canvas.
 */
module LevelLayouts {
  import opened Grid
  import opened Constants

  /** The shape the game gives a level of `pieces` pieces. */
  function Shape(pieces: int): Layout {
    BestLayout(pieces, 1.0)
  }

  /** Six pieces: 3 rows of 2 columns (2/3 is nearer to 1 than 3/2). */
  lemma SixPieces()
    ensures Shape(6) == Layout(3, 2)
  {
  }

  /** Twelve pieces: 4 rows of 3 columns (3/4 is nearer to 1 than 2/6, 4/3, 6/2 and 12/1). */
  lemma TwelvePieces()
    ensures Shape(12) == Layout(4, 3)
  {
    var quarter := RatioDiff(12, 3, 1.0);
    assert quarter == 0.25;
    forall c | 4 <= c && IsDivisor(12, c)
      ensures RatioDiff(12, c, 1.0) >= quarter
    {
      assert c in {4, 6, 12};
    }
    SearchKeepsBest(12, 1.0, 4, Layout(4, 3), quarter);
  }

  /** The square piece counts of the tables are laid out as squares. */
  lemma SquarePieces()
    ensures Shape(4) == Layout(2, 2)
    ensures Shape(9) == Layout(3, 3)
    ensures Shape(16) == Layout(4, 4)
    ensures Shape(25) == Layout(5, 5)
  {
    SquareCountIsSquareGrid(2);
    SquareCountIsSquareGrid(3);
    SquareCountIsSquareGrid(4);
    SquareCountIsSquareGrid(5);
  }

  /** A real board: at least two rows and two columns, multiplying out to the piece count. */
  predicate IsBoard(pieces: int, g: Layout) {
    g.rows >= 2 && g.cols >= 2 && g.rows * g.cols == pieces
  }

  /** Each piece count used by the tables has a board of at least 2 x 2 tiles. */
  lemma BoardOf(n: int)
    requires n in {4, 6, 9, 12, 16, 25}
    ensures IsBoard(n, Shape(n))
  {
    if n == 6 {
      SixPieces();
    } else if n == 12 {
      TwelvePieces();
    } else {
      SquarePieces();
    }
  }

  /** Every level of either table is laid out on a board of at least 2 x 2 tiles. */
  lemma TablesGiveBoards()
    ensures forall i :: 0 <= i < |LevelsNeurotypical| ==>
      IsBoard(LevelsNeurotypical[i].pieces, Shape(LevelsNeurotypical[i].pieces))
    ensures forall i :: 0 <= i < |LevelsTea| ==> IsBoard(LevelsTea[i].pieces, Shape(LevelsTea[i].pieces))
  {
    forall i | 0 <= i < |LevelsNeurotypical|
      ensures IsBoard(LevelsNeurotypical[i].pieces, Shape(LevelsNeurotypical[i].pieces))
    {
      BoardOf(LevelsNeurotypical[i].pieces);
    }
    forall i | 0 <= i < |LevelsTea|
      ensures IsBoard(LevelsTea[i].pieces, Shape(LevelsTea[i].pieces))
    {
      BoardOf(LevelsTea[i].pieces);
    }
  }
}
