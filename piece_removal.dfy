/**
 * The removal handler (PieceRemovalHandler): which pieces may be taken, taking one of the
 * current player's pieces, and the cascade that then clears pieces left without support.
 */
module Removal {
  import opened Wrappers
  import opened GridPositions
  import opened Pieces
  import opened Layout
  import opened Boards
  import opened Turns
  import opened WinLines
  import opened Game
  import opened CascadeRules

  /** The pieces, in the order listed, that a pass marks: above the bottom layer over an empty cell. */
  function Unsupported(ps: seq<Piece>, g: Grid): (r: seq<Piece>)
    reads ps
    ensures forall q | q in r :: q in ps
  {
    if ps == [] then []
    else
      var last := ps[|ps| - 1];
      var pos := last.position;
      Unsupported(ps[..|ps| - 1], g)
      + (if IsValid(pos) && pos.y != 0 && !Occupied(g, Below(pos)) then [last] else [])
  }

  /** The cells the listed pieces record. */
  function PositionsOf(ps: seq<Piece>): (r: seq<Position>)
    reads ps
    ensures |r| == |ps| && forall i | 0 <= i < |ps| :: r[i] == ps[i].position
  {
    seq(|ps|, i requires 0 <= i < |ps| reads ps => ps[i].position)
  }

  lemma PositionsOfConcat(a: seq<Piece>, b: seq<Piece>)
    ensures PositionsOf(a + b) == PositionsOf(a) + PositionsOf(b)
  {
  }

  lemma UnsupportedStep(s: seq<Piece>, piece: Piece, g: Grid)
    ensures Unsupported(s + [piece], g) == Unsupported(s, g)
      + (if IsValid(piece.position) && piece.position.y != 0 && !Occupied(g, Below(piece.position)) then [piece] else [])
  {
    assert (s + [piece])[..|s|] == s;
  }

  /**
   * Marking the pieces of a consistent board, in the board's listing order, marks the cells
   * of the floating pieces in scan order.
   */
  lemma {:induction false} UnsupportedIsMarked(c: seq<Piece?>, n: int)
    requires |c| == CellCount && 0 <= n <= CellCount
    requires forall i | 0 <= i < CellCount :: c[i] != null ==> c[i].position == PosAt(i)
    ensures PositionsOf(Unsupported(NonNull(c[..n]), OwnersOf(c))) == MarkedUpTo(OwnersOf(c), n)
  {
    if n > 0 {
      UnsupportedIsMarked(c, n - 1);
      NonNullStep(c, n - 1);
      MarkStep(c, n - 1, NonNull(c[..n - 1]));
    }
  }

  /** The step of UnsupportedIsMarked for cell k. */
  lemma MarkStep(c: seq<Piece?>, k: int, s: seq<Piece>)
    requires |c| == CellCount && 0 <= k < CellCount
    requires c[k] != null ==> c[k].position == PosAt(k)
    ensures PositionsOf(Unsupported(s + (if c[k] == null then [] else [c[k]]), OwnersOf(c)))
      == PositionsOf(Unsupported(s, OwnersOf(c))) + (if Floats(OwnersOf(c), PosAt(k)) then [PosAt(k)] else [])
  {
    var g := OwnersOf(c);
    var here := PosAt(k);
    assert Occupied(g, here) <==> c[k] != null;
    if c[k] == null {
      assert s + [] == s;
    } else {
      var piece := c[k];
      UnsupportedStep(s, piece, g);
      var tail := if Floats(g, here) then [piece] else [];
      PositionsOfConcat(Unsupported(s, g), tail);
    }
  }

  class PieceRemovalHandler {
    const board: BoardManager
    const turns: TurnManager
    const game: GameManager
    /** The cascade setting taken from the game settings. */
    const allowRemovalCascade: bool

    constructor (board: BoardManager, turns: TurnManager, game: GameManager, allowRemovalCascade: bool)
      ensures this.board == board && this.turns == turns && this.game == game
      ensures this.allowRemovalCascade == allowRemovalCascade
    {
      this.board := board;
      this.turns := turns;
      this.game := game;
      this.allowRemovalCascade := allowRemovalCascade;
    }

    /**
     * CanRemovePiece: nothing sits directly on the cell. Cells on the top layer, and any
     * position at or above it, always qualify; the cell above must lie on the board otherwise.
     */
    function CanRemovePiece(position: Position): (r: bool)
      requires board.Valid() && (position.y < 2 ==> IsValid(Above(position)))
      reads board.grid
      ensures r <==> position.y >= 2 || !Occupied(board.Occupancy(), Above(position))
      ensures IsValid(position) ==> (r <==> Exposed(board.Occupancy(), position))
    {
      if position.y < 2 then board.IsPositionEmpty(Position(position.x, position.y + 1, position.z))
      else true
    }

    /**
     * HasRemovablePieces: whether the player has a piece with nothing on top of it, found by
     * going through the player's pieces in the board's listing order.
     */
    method HasRemovablePieces(playerType: Player) returns (r: bool)
      requires board.Valid() && board.Consistent()
      ensures r <==> exists p | IsValid(p) :: Holds(board.Occupancy(), p, playerType) && Exposed(board.Occupancy(), p)
    {
      var playerPieces := board.GetPlayerPieces(playerType);
      for k := 0 to |playerPieces|
        invariant forall j | 0 <= j < k ::
          IsValid(playerPieces[j].position) && !Exposed(board.Occupancy(), playerPieces[j].position)
      {
        var piece := playerPieces[k];
        board.OwnedPieceRecordsCell(playerType, piece);
        if CanRemovePiece(piece.position) {
          assert Holds(board.Occupancy(), piece.position, playerType);
          return true;
        }
      }
      NoneExposed(playerType, playerPieces);
      return false;
    }

    /** When none of the player's listed pieces is exposed, the player has no exposed piece. */
    lemma NoneExposed(playerType: Player, playerPieces: seq<Piece>)
      requires board.Valid() && board.Consistent()
      requires playerPieces == OwnedBy(board.Cells(), playerType)
      requires forall j | 0 <= j < |playerPieces| ::
        IsValid(playerPieces[j].position) && !Exposed(board.Occupancy(), playerPieces[j].position)
      ensures forall p | IsValid(p) && Holds(board.Occupancy(), p, playerType) :: !Exposed(board.Occupancy(), p)
    {
      OwnedByMembers(board.Cells(), playerType);
      forall p | IsValid(p) && Holds(board.Occupancy(), p, playerType)
        ensures !Exposed(board.Occupancy(), p)
      {
        board.CellAt(p);
        var piece := board.Cells()[Index(p)];
        assert piece != null && piece in board.Cells();
        board.PieceRecordsCell(piece);
        IndexInjective(p, piece.position);
        var j :| 0 <= j < |playerPieces| && playerPieces[j] == piece;
      }
    }

    /**
     * One pass of HandleCascadeRemovals: the floating pieces are marked, then handed to
     * BoardManager.RemovePiece in the order listed, and the pass reports a removal whenever it
     * marked anything, whether or not the board accepted it.
     */
    method CascadePass() returns (removedAny: bool)
      requires board.Valid() && board.Consistent()
      modifies board.grid
      ensures board.Valid() && board.Consistent()
      ensures (board.Occupancy(), removedAny) == Pass(old(board.Occupancy()))
      ensures forall i | 0 <= i < CellCount :: board.Cells()[i] == null || board.Cells()[i] == old(board.Cells())[i]
    {
      var piecesToRemove := MarkUnsupported();
      removedAny := RemoveMarked(piecesToRemove);
    }

    /**
     * The marking half of a pass: every listed piece above the bottom layer whose cell below
     * is empty, in the board's listing order; their cells are the floating cells in scan order.
     */
    method MarkUnsupported() returns (piecesToRemove: seq<Piece>)
      requires board.Valid() && board.Consistent()
      ensures PositionsOf(piecesToRemove) == Marked(board.Occupancy())
    {
      var allPieces := board.GetAllPieces();
      NonNullMembers(board.Cells());
      piecesToRemove := [];
      for k := 0 to |allPieces|
        invariant piecesToRemove == Unsupported(allPieces[..k], board.Occupancy())
      {
        var piece := allPieces[k];
        assert allPieces[..k + 1][..k] == allPieces[..k];
        assert piece in board.Cells();
        board.PieceRecordsCell(piece);
        var position := piece.position;
        if position.y != 0 {
          var positionBelow := Position(position.x, position.y - 1, position.z);
          if board.IsPositionEmpty(positionBelow) {
            piecesToRemove := piecesToRemove + [piece];
          }
        }
      }
      assert allPieces[..|allPieces|] == allPieces;
      assert board.Cells()[..CellCount] == board.Cells();
      UnsupportedIsMarked(board.Cells(), CellCount);
    }

    /**
     * The removal half of a pass: each marked piece's cell is handed to BoardManager.RemovePiece
     * in turn, and a removal is reported whenever the list was not empty.
     */
    method RemoveMarked(piecesToRemove: seq<Piece>) returns (removedAny: bool)
      requires board.Valid() && board.Consistent()
      modifies board.grid
      ensures board.Valid() && board.Consistent()
      ensures board.Occupancy() == RemoveEach(old(board.Occupancy()), PositionsOf(piecesToRemove))
      ensures removedAny <==> piecesToRemove != []
      ensures forall i | 0 <= i < CellCount :: board.Cells()[i] == null || board.Cells()[i] == old(board.Cells())[i]
    {
      ghost var marks := PositionsOf(piecesToRemove);
      removedAny := false;
      for k := 0 to |piecesToRemove|
        invariant board.Valid()
        invariant board.Occupancy() == RemoveEach(old(board.Occupancy()), marks[..k])
        invariant removedAny <==> k > 0
        invariant forall i | 0 <= i < CellCount :: board.Cells()[i] == null || board.Cells()[i] == old(board.Cells())[i]
      {
        assert marks[..k + 1][..k] == marks[..k];
        var _ := board.RemovePiece(piecesToRemove[k].position);
        removedAny := true;
      }
      assert marks[..|marks|] == marks;
    }

    /**
     * HandleCascadeRemovals: passes repeat until one marks nothing. On a board where every
     * floating piece has nothing on top, the first pass takes exactly the floating pieces
     * and the second finds none.
     */
    method HandleCascadeRemovals()
      requires board.Valid() && board.Consistent() && CascadeSafe(board.Occupancy())
      modifies board.grid
      ensures board.Valid() && board.Consistent()
      ensures board.Occupancy() == Collapse(old(board.Occupancy()))
      ensures Supported(board.Occupancy())
    {
      ghost var g0 := board.Occupancy();
      var removedAny := CascadePass();
      PassIsCollapse(g0);
      CollapseSupported(g0);
      while removedAny
        invariant board.Valid() && board.Consistent()
        invariant board.Occupancy() == Collapse(g0) && Supported(board.Occupancy())
        decreases removedAny
      {
        ghost var g := board.Occupancy();
        NothingMarkedIffSupported(g);
        removedAny := CascadePass();
      }
    }

    /**
     * RemovePiece: only a piece of the player to move with nothing on top of it is taken.
     * With the cascade enabled the floating pieces then go too; either way the game returns
     * to Playing. The turn queues are not touched.
     */
    method RemovePiece(position: Position) returns (ok: bool)
      requires board.Valid() && board.Consistent()
      requires allowRemovalCascade && CanTake(board.Occupancy(), position)
               && Holds(board.Occupancy(), position, turns.currentPlayer)
               ==> CascadeSafe(Put(board.Occupancy(), position, None))
      modifies board.grid, game
      ensures board.Valid() && board.Consistent()
      ensures ok <==> CanTake(old(board.Occupancy()), position) && Holds(old(board.Occupancy()), position, turns.currentPlayer)
      ensures ok ==> game.currentState == Playing
      ensures ok && !allowRemovalCascade ==> board.Occupancy() == Put(old(board.Occupancy()), position, None)
      ensures ok && allowRemovalCascade ==> board.Occupancy() == Collapse(Put(old(board.Occupancy()), position, None))
      ensures ok && Supported(old(board.Occupancy())) ==>
        board.Occupancy() == Put(old(board.Occupancy()), position, None) && Supported(board.Occupancy())
      ensures !ok ==> unchanged(board.grid) && unchanged(game)
    {
      var piece := board.GetPieceAt(position);
      if piece == null || !CanRemovePiece(position) {
        return false;
      }
      if piece.owner != turns.currentPlayer {
        return false;
      }
      TakeAndCascade(position);
      game.OnPieceRemoved();
      return true;
    }

    /** The board side of RemovePiece once its guards passed: the piece goes, then the cascade if enabled. */
    method TakeAndCascade(position: Position)
      requires board.Valid() && board.Consistent() && CanTake(board.Occupancy(), position)
      requires allowRemovalCascade ==> CascadeSafe(Put(board.Occupancy(), position, None))
      modifies board.grid
      ensures board.Valid() && board.Consistent()
      ensures !allowRemovalCascade ==> board.Occupancy() == Put(old(board.Occupancy()), position, None)
      ensures allowRemovalCascade ==> board.Occupancy() == Collapse(Put(old(board.Occupancy()), position, None))
      ensures Supported(old(board.Occupancy())) ==>
        board.Occupancy() == Put(old(board.Occupancy()), position, None) && Supported(board.Occupancy())
    {
      ghost var g1 := board.Occupancy();
      var _ := board.RemovePiece(position);
      if Supported(g1) {
        TakeLeavesNothingToCollapse(g1, position);
      }
      if allowRemovalCascade {
        HandleCascadeRemovals();
      }
    }
  }
}
