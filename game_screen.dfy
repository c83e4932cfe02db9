/**
 * The sequential game of the TEA mode: the pieces are offered one at a time, in
 * array order, and the player taps the board slot where the offered piece belongs.
 * A tap on the right slot places the piece and moves on to the next one (or, on the
 * last piece, asks for the level to be completed); any other tap is a miss that
 * only shows the guide image.
 *
 * The delays of the source (300 ms before the next piece, 500 ms before completion,
 * 1.5 s of guide after a miss) are collapsed: each tap is one atomic step.
 */
module GameScreen {
  import opened Grid
  import opened Tiling

  /** The two state fields `handleSlotClick` reads and writes. */
  datatype Progress = Progress(currentPieceIndex: nat, placedPieces: set<int>)

  /** What a tap does: nothing, a miss, a placement, or a placement that asks for completion. */
  datatype Outcome = Ignored | Miss | Advanced | CompleteRequested
  {
    predicate IsHit() {
      this == Advanced || this == CompleteRequested
    }
  }

  /** `handleSlotClick(slotId)`: the new progress and what the tap did. */
  function Click(pieces: seq<Piece>, isLoading: bool, p: Progress, slotId: int): (r: (Progress, Outcome))
    ensures r.1 == Ignored <==> isLoading || p.currentPieceIndex >= |pieces|
    ensures r.1.IsHit() <==>
      !isLoading && p.currentPieceIndex < |pieces| && slotId == pieces[p.currentPieceIndex].id
    ensures !r.1.IsHit() ==> r.0 == p
    ensures p.placedPieces <= r.0.placedPieces <= p.placedPieces + {slotId}
    ensures r.1.IsHit() ==> slotId in r.0.placedPieces
    ensures r.1 == Advanced ==> r.0.currentPieceIndex == p.currentPieceIndex + 1 < |pieces|
    ensures r.1 == CompleteRequested ==> r.0.currentPieceIndex == p.currentPieceIndex == |pieces| - 1
  {
    if isLoading || p.currentPieceIndex >= |pieces| then (p, Ignored)
    else
      var current := pieces[p.currentPieceIndex];
      if slotId == current.id then
        var placed := p.placedPieces + {current.id};
        if p.currentPieceIndex == |pieces| - 1 then (Progress(p.currentPieceIndex, placed), CompleteRequested)
        else (Progress(p.currentPieceIndex + 1, placed), Advanced)
      else (p, Miss)
  }

  /** The ids `0 .. k-1`. */
  function Below(k: int): (r: set<int>)
    ensures forall i :: i in r <==> 0 <= i < k
  {
    if k <= 0 then {} else Below(k - 1) + {k - 1}
  }

  lemma {:induction false} BelowSize(k: nat)
    ensures |Below(k)| == k
  {
    if k > 0 {
      var smaller := Below(k - 1);
      BelowSize(k - 1);
      assert k - 1 !in smaller;
      assert |smaller + {k - 1}| == |smaller| + 1;
    }
  }

  /** The pieces come from `splitIntoPieces`: the piece at index `i` has id `i`. */
  ghost predicate RasterIds(pieces: seq<Piece>) {
    forall i :: 0 <= i < |pieces| ==> pieces[i].id == i
  }

  /**
   * The invariant of the game: the placed ids are exactly those of the pieces before
   * the current one, or all of them once the last piece has been placed.
   */
  ghost predicate InOrder(pieces: seq<Piece>, p: Progress) {
    && RasterIds(pieces)
    && (|pieces| == 0 ==> p == Progress(0, {}))
    && (|pieces| > 0 ==>
          && p.currentPieceIndex < |pieces|
          && (p.placedPieces == Below(p.currentPieceIndex)
              || (p.currentPieceIndex == |pieces| - 1 && p.placedPieces == Below(|pieces|))))
  }

  /** The condition of the completion overlay: `placedPieces.size === pieces.length`. */
  predicate AllCounted(pieces: seq<Piece>, p: Progress) {
    |p.placedPieces| == |pieces|
  }

  /** The condition of the "current piece" panel: there is a current piece and it is not placed yet. */
  predicate CurrentOpen(pieces: seq<Piece>, p: Progress) {
    p.currentPieceIndex < |pieces| && pieces[p.currentPieceIndex].id !in p.placedPieces
  }

  /** The overlay is drawn: loading is over (the loading view returns early) and its condition holds. */
  predicate CompletionShown(pieces: seq<Piece>, isLoading: bool, p: Progress) {
    !isLoading && AllCounted(pieces, p)
  }

  /** The panel is drawn: loading is over and its condition holds. */
  predicate CurrentPieceShown(pieces: seq<Piece>, isLoading: bool, p: Progress) {
    !isLoading && CurrentOpen(pieces, p)
  }

  /** A fresh game on pieces from `splitIntoPieces` starts in order. */
  lemma FreshGameInOrder(pieces: seq<Piece>, rows: int, cols: int)
    requires IsRasterTiling(pieces, rows, cols)
    ensures InOrder(pieces, Progress(0, {}))
  {
    assert Below(0) == {};
  }

  /** Every tap keeps the game in order. */
  lemma ClickKeepsOrder(pieces: seq<Piece>, isLoading: bool, p: Progress, slotId: int)
    requires InOrder(pieces, p)
    ensures InOrder(pieces, Click(pieces, isLoading, p, slotId).0)
  {
    var (q, outcome) := Click(pieces, isLoading, p, slotId);
    if outcome.IsHit() {
      var k := p.currentPieceIndex;
      assert Below(k) + {k} == Below(k + 1);
      assert Below(|pieces|) + {k} == Below(|pieces|);
    }
  }

  /**
   * Once loaded, a tap places a piece exactly when it hits the slot of the current
   * piece, whose id is the current index; every other slot, placed or not, is a miss.
   */
  lemma HitIffCurrentSlot(pieces: seq<Piece>, p: Progress, slotId: int)
    requires InOrder(pieces, p) && |pieces| > 0
    ensures Click(pieces, false, p, slotId).1 != Ignored
    ensures Click(pieces, false, p, slotId).1.IsHit() <==> slotId == p.currentPieceIndex
    ensures Click(pieces, false, p, slotId).1 == Miss <==> slotId != p.currentPieceIndex
  {
  }

  /** Before completion, tapping the slot of a piece already placed is a miss. */
  lemma PlacedSlotIsMiss(pieces: seq<Piece>, p: Progress, slotId: int)
    requires InOrder(pieces, p) && !AllCounted(pieces, p)
    requires slotId in p.placedPieces
    ensures Click(pieces, false, p, slotId) == (p, Miss)
  {
    if p.placedPieces == Below(|pieces|) {
      BelowSize(|pieces|);
      assert false;
    }
  }

  /** In order, the overlay shows exactly when loading is over and every id of the board has been placed. */
  lemma CompletionIffAllPlaced(pieces: seq<Piece>, isLoading: bool, p: Progress)
    requires InOrder(pieces, p)
    ensures AllCounted(pieces, p) <==> p.placedPieces == Below(|pieces|)
    ensures CompletionShown(pieces, isLoading, p) <==> !isLoading && p.placedPieces == Below(|pieces|)
  {
    BelowSize(|pieces|);
    BelowSize(p.currentPieceIndex);
    if |pieces| == 0 {
      assert Below(0) == {};
    }
  }

  /**
   * While loading, neither the current-piece panel nor the completion overlay is drawn;
   * once loaded and in order, exactly one of them is.
   */
  lemma PanelIffNotComplete(pieces: seq<Piece>, isLoading: bool, p: Progress)
    requires InOrder(pieces, p)
    ensures isLoading ==> !CurrentPieceShown(pieces, isLoading, p) && !CompletionShown(pieces, isLoading, p)
    ensures !isLoading ==> (CurrentPieceShown(pieces, isLoading, p) <==> !CompletionShown(pieces, isLoading, p))
  {
    CompletionIffAllPlaced(pieces, isLoading, p);
    if |pieces| > 0 && p.placedPieces == Below(p.currentPieceIndex) {
      assert p.currentPieceIndex in Below(|pieces|);
    }
  }

  /**
   * After completion the loading guard no longer blocks: tapping the last slot again
   * changes nothing but asks for completion once more.
   */
  lemma RepeatedLastTap(pieces: seq<Piece>)
    requires RasterIds(pieces) && |pieces| > 0
    ensures var done := Progress(|pieces| - 1, Below(|pieces|));
      Click(pieces, false, done, |pieces| - 1) == (done, CompleteRequested)
  {
    assert Below(|pieces|) + {|pieces| - 1} == Below(|pieces|);
  }

  /**
   * An empty board (the image failed to load, so loading ended with no pieces) shows
   * the overlay and ignores every tap.
   */
  lemma EmptyBoard(slotId: int)
    ensures CompletionShown([], false, Progress(0, {}))
    ensures Click([], false, Progress(0, {}), slotId) == (Progress(0, {}), Ignored)
  {
  }

  /** The progress after a series of taps. */
  function Run(pieces: seq<Piece>, p: Progress, slots: seq<int>): Progress
    decreases |slots|
  {
    if |slots| == 0 then p else Run(pieces, Click(pieces, false, p, slots[0]).0, slots[1..])
  }

  lemma {:induction false} RunKeepsOrder(pieces: seq<Piece>, p: Progress, slots: seq<int>)
    requires InOrder(pieces, p)
    ensures InOrder(pieces, Run(pieces, p, slots))
    decreases |slots|
  {
    if |slots| > 0 {
      ClickKeepsOrder(pieces, false, p, slots[0]);
      RunKeepsOrder(pieces, Click(pieces, false, p, slots[0]).0, slots[1..]);
    }
  }

  /** The slots `k, k+1, .., n-1`. */
  function Slots(k: nat, n: nat): (s: seq<int>)
    requires k <= n
    ensures |s| == n - k && forall i :: 0 <= i < |s| ==> s[i] == k + i
  {
    seq(n - k, i requires 0 <= i < n - k => k + i)
  }

  lemma {:induction false} RunFromHere(pieces: seq<Piece>, k: nat)
    requires RasterIds(pieces) && k < |pieces|
    ensures Run(pieces, Progress(k, Below(k)), Slots(k, |pieces|)) == Progress(|pieces| - 1, Below(|pieces|))
    decreases |pieces| - k
  {
    var n := |pieces|;
    assert Below(k) + {k} == Below(k + 1);
    if k < n - 1 {
      assert Slots(k, n)[1..] == Slots(k + 1, n);
      RunFromHere(pieces, k + 1);
    }
  }

  /** Tapping the slots in raster order places every piece and ends with the overlay shown. */
  lemma RasterOrderCompletes(pieces: seq<Piece>)
    requires RasterIds(pieces) && |pieces| > 0
    ensures Run(pieces, Progress(0, {}), Slots(0, |pieces|)) == Progress(|pieces| - 1, Below(|pieces|))
    ensures CompletionShown(pieces, false, Run(pieces, Progress(0, {}), Slots(0, |pieces|)))
  {
    assert Below(0) == {};
    RunFromHere(pieces, 0);
    BelowSize(|pieces|);
  }

  /**
   * Loading a larger board while keeping the progress of a finished one (the source
   * does not reset the progress when it initialises again) leaves the game out of
   * order: the old placed ids are more than those before the kept index.
   */
  lemma StaleProgressBreaksOrder(done: seq<Piece>, next: seq<Piece>)
    requires RasterIds(done) && RasterIds(next) && 0 < |done| < |next|
    ensures InOrder(done, Progress(|done| - 1, Below(|done|)))
    ensures !InOrder(next, Progress(|done| - 1, Below(|done|)))
  {
    var k := |done| - 1;
    assert k in Below(|done|) && k !in Below(k);
    assert |done| !in Below(|done|) && |done| in Below(|next|);
  }

  /** CSS grid row of a slot (1-based): the row whose span of `cols` ids holds `id`. */
  function GridRow(id: int, cols: int): (r: int)
    requires cols > 0
    ensures (r - 1) * cols <= id < r * cols
  {
    id / cols + 1
  }

  /** CSS grid column of a slot (1-based): together with the row it spells out the id. */
  function GridColumn(id: int, cols: int): (c: int)
    requires cols > 0
    ensures 1 <= c <= cols
    ensures id == (GridRow(id, cols) - 1) * cols + (c - 1)
  {
    id % cols + 1
  }

  /** Each slot of a tiled board is drawn in the grid cell of its piece's correct position. */
  lemma SlotPlacement(pieces: seq<Piece>, rows: int, cols: int, i: int)
    requires IsRasterTiling(pieces, rows, cols) && 0 <= i < |pieces|
    ensures cols > 0
    ensures GridRow(pieces[i].id, cols) == pieces[i].correctRow + 1
    ensures GridColumn(pieces[i].id, cols) == pieces[i].correctCol + 1
    ensures 1 <= GridRow(pieces[i].id, cols) <= rows && 1 <= GridColumn(pieces[i].id, cols) <= cols
  {
    RasterIndex(pieces[i].correctRow, pieces[i].correctCol, cols);
  }

  /** The screen's state. */
  class SequentialGame {
    var pieces: seq<Piece>
    var currentPieceIndex: nat
    var placedPieces: set<int>
    var showGuide: bool
    var gridSize: Layout
    var isLoading: bool

    function State(): Progress
      reads this
    {
      Progress(currentPieceIndex, placedPieces)
    }

    ghost predicate Valid()
      reads this
    {
      InOrder(pieces, State())
    }

    /** The overlay, on the object's state: drawn once loading is over and every piece is placed. */
    function Completed(): (b: bool)
      reads this
      ensures b <==> CompletionShown(pieces, isLoading, State())
      ensures isLoading ==> !b
      ensures Valid() ==> (b <==> !isLoading && placedPieces == Below(|pieces|))
    {
      assert Valid() ==> (CompletionShown(pieces, isLoading, State()) <==> !isLoading && placedPieces == Below(|pieces|)) by {
        if Valid() {
          CompletionIffAllPlaced(pieces, isLoading, State());
        }
      }
      !isLoading && |placedPieces| == |pieces|
    }

    /** The initial state of the screen: no pieces yet, loading. */
    constructor ()
      ensures pieces == [] && currentPieceIndex == 0 && placedPieces == {}
      ensures !showGuide && gridSize == Layout(2, 2) && isLoading
      ensures Valid()
    {
      pieces := [];
      currentPieceIndex := 0;
      placedPieces := {};
      showGuide := false;
      gridSize := Layout(2, 2);
      isLoading := true;
    }

    /**
     * `initializePuzzle` for a level of `pieceCount` pieces. `imageLoads` says whether
     * the image could be loaded; when it cannot, only the loading flag changes. The
     * progress fields are never reset.
     */
    method InitializePuzzle(pieceCount: int, imageLoads: bool)
      modifies this
      ensures !isLoading
      ensures currentPieceIndex == old(currentPieceIndex) && placedPieces == old(placedPieces)
      ensures showGuide == old(showGuide)
      ensures imageLoads ==> gridSize == BestLayout(pieceCount, 1.0)
      ensures imageLoads ==> IsRasterTiling(pieces, gridSize.rows, gridSize.cols)
      ensures imageLoads && pieceCount >= 2 ==> |pieces| == pieceCount
      ensures !imageLoads ==> pieces == old(pieces) && gridSize == old(gridSize)
      ensures old(State()) == Progress(0, {}) && (imageLoads || old(pieces) == []) ==> Valid()
    {
      isLoading := true;
      if imageLoads {
        var layout := CalculateGrid(pieceCount, 1.0);
        gridSize := layout;
        pieces := SplitIntoPieces(layout.rows, layout.cols);
        FreshGameInOrder(pieces, layout.rows, layout.cols);
        if pieceCount >= 2 {
          RowsPositive(pieceCount, layout.cols);
        }
      }
      isLoading := false;
    }

    /** `handleSlotClick(slotId)`. */
    method HandleSlotClick(slotId: int) returns (outcome: Outcome)
      modifies this
      ensures (State(), outcome) == Click(old(pieces), old(isLoading), old(State()), slotId)
      ensures pieces == old(pieces) && isLoading == old(isLoading) && gridSize == old(gridSize)
      ensures showGuide == (outcome == Miss || (outcome == Ignored && old(showGuide)))
      ensures old(Valid()) ==> Valid()
    {
      if Valid() {
        ClickKeepsOrder(pieces, isLoading, State(), slotId);
      }
      if isLoading || currentPieceIndex >= |pieces| {
        return Ignored;
      }
      var currentPiece := pieces[currentPieceIndex];
      if slotId == currentPiece.id {
        placedPieces := placedPieces + {currentPiece.id};
        showGuide := false;
        if currentPieceIndex == |pieces| - 1 {
          outcome := CompleteRequested;
        } else {
          currentPieceIndex := currentPieceIndex + 1;
          outcome := Advanced;
        }
      } else {
        showGuide := true;
        outcome := Miss;
      }
    }

    /** The hint button flips the guide image. */
    method ToggleGuide()
      modifies this
      ensures showGuide == !old(showGuide)
      ensures pieces == old(pieces) && State() == old(State()) && isLoading == old(isLoading)
      ensures gridSize == old(gridSize)
    {
      showGuide := !showGuide;
    }
  }
}
