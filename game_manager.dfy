/**
 * The game state machine (GameManager): it owns the phase of play and routes a chosen cell to
 * placement or removal, consulting the turn bookkeeping and the win-line checker.
 */
module Game {
  import opened Wrappers
  import opened GridPositions
  import opened Pieces
  import opened Layout
  import opened Boards
  import opened Turns
  import opened WinLines

  datatype GameState = Menu | Playing | RemovingPiece | GameOver

  /** No piece of the empty board floats. */
  lemma EmptyGridSupported()
    ensures Supported(EmptyGrid())
  {
  }

  class GameManager {
    const board: BoardManager
    const turns: TurnManager
    const checker: WinConditionChecker
    /** The removal threshold taken from the game settings. */
    const movesBeforeRemoval: int
    var currentState: GameState

    /**
     * What every handler keeps: the checker looks at this board, no piece floats, every piece
     * on the board records its own cell, and each turn queue holds its own player's pieces.
     */
    ghost predicate Valid()
      reads this, board, checker, turns, board.grid, if board.Valid() then board.PieceSet() else {}
    {
      board.Valid() && checker.board == board && Supported(board.Occupancy()) && board.Consistent()
      && turns.HistoriesOwned()
    }

    /**
     * How a placement by `who` at `position` ends once the piece is down, on the board g it
     * leaves, `moves` being the move count before: a line through the cell filled by the mover
     * ends the game with the mover still to play; otherwise the turn passes and removal is due
     * exactly when the new mover's queue has reached the threshold.
     */
    ghost predicate PlacementSettled(g: Grid, position: Position, who: Player, moves: int)
      reads this, checker, turns
    {
      if WinsThrough(checker.winLines, g, position, who) then
        currentState == GameOver && turns.currentPlayer == who && turns.moveCount == moves
      else
        turns.currentPlayer == Opponent(who) && turns.moveCount == moves + 1
        && currentState == (if turns.ShouldRemovePiece() then RemovingPiece else Playing)
    }

    /**
     * The queue of `who` is `mine` with one more piece of `who` at its back, and the other
     * player's queue is still `theirs`.
     */
    ghost predicate QueuedOne(who: Player, mine: seq<Piece>, theirs: seq<Piece>)
      reads turns
    {
      var now := turns.History(who);
      |now| == |mine| + 1 && now[..|mine|] == mine && now[|mine|].owner == who
      && turns.History(Opponent(who)) == theirs
    }

    /** The phase after a removal leaves the board g: over when some line is filled by either player. */
    ghost predicate RemovalSettled(g: Grid)
      reads this, checker
    {
      currentState == if HasLine(checker.winLines, g, X) || HasLine(checker.winLines, g, O) then GameOver else Playing
    }

    /** The component as loaded: the menu is showing. */
    constructor (board: BoardManager, turns: TurnManager, checker: WinConditionChecker, movesBeforeRemoval: int)
      ensures this.board == board && this.turns == turns && this.checker == checker
      ensures this.movesBeforeRemoval == movesBeforeRemoval && currentState == Menu
      ensures (board.Valid() && checker.board == board && board.Occupancy() == EmptyGrid()
               && turns.HistoriesOwned()) ==> Valid()
    {
      this.board := board;
      this.turns := turns;
      this.checker := checker;
      this.movesBeforeRemoval := movesBeforeRemoval;
      currentState := Menu;
      EmptyGridSupported();
    }

    /**
     * InitializeGame: turns reset with the configured threshold, the catalogue regenerated, and
     * play begins. The board's pieces are left where they are (BoardManager.Initialize only
     * rebuilds the cell objects).
     */
    method InitializeGame()
      modifies this, turns, checker
      ensures currentState == Playing
      ensures turns.movesBeforeRemoval == movesBeforeRemoval && turns.currentPlayer == X
      ensures turns.moveCount == 0 && turns.xPieceHistory == [] && turns.oPieceHistory == []
      ensures checker.winLines == Catalogue(checker.enableVerticalWins, checker.enableDiagonal3D)
      ensures old(Valid()) ==> Valid()
    {
      turns.Initialize(movesBeforeRemoval);
      checker.Initialize();
      ChangeState(Playing);
    }

    /** ChangeState: the new phase (the interface updates are not modelled). */
    method ChangeState(newState: GameState)
      modifies this
      ensures currentState == newState
    {
      currentState := newState;
    }

    /**
     * HandlePiecePlacement. Outside Playing nothing happens. Otherwise a new piece of the
     * player to move is made and queued first; if the board refuses the cell that is all.
     * A placed piece records its cell and the move count; a line through the cell filled by
     * the mover ends the game with the mover still to play; otherwise the turn passes and the
     * phase becomes RemovingPiece exactly when the new mover's queue reached the threshold.
     */
    method HandlePiecePlacement(position: Position)
      requires Valid()
      modifies this, board.grid, turns
      ensures Valid()
      ensures turns.movesBeforeRemoval == old(turns.movesBeforeRemoval)
      ensures old(currentState) != Playing ==>
        currentState == old(currentState) && unchanged(board.grid) && unchanged(turns)
        && board.Cells() == old(board.Cells())
      ensures old(currentState) == Playing ==>
        var who := old(turns.currentPlayer);
        QueuedOne(who, old(turns.History(who)), old(turns.History(Opponent(who))))
        && fresh(turns.History(who)[|turns.History(who)| - 1])
      ensures old(currentState) == Playing && !CanPlace(old(board.Occupancy()), position) ==>
        unchanged(board.grid) && board.Cells() == old(board.Cells()) && currentState == Playing
        && turns.currentPlayer == old(turns.currentPlayer) && turns.moveCount == old(turns.moveCount)
      ensures old(currentState) == Playing && CanPlace(old(board.Occupancy()), position) ==>
        var who := old(turns.currentPlayer);
        var piece := turns.History(who)[|turns.History(who)| - 1];
        board.Cells() == old(board.Cells())[Index(position) := piece]
        && board.Occupancy() == Put(old(board.Occupancy()), position, Some(who))
        && piece.position == position && piece.moveNumber == old(turns.moveCount)
      ensures old(currentState) == Playing && CanPlace(old(board.Occupancy()), position) ==>
        PlacementSettled(board.Occupancy(), position, old(turns.currentPlayer), old(turns.moveCount))
    {
      if currentState != Playing {
        return;
      }
      ghost var before := board.Occupancy();
      var piece := turns.CreatePieceForCurrentPlayer();
      var placed := board.PlacePiece(piece, position);
      if placed {
        assert Supported(board.Occupancy()) by {
          PlaceKeepsSupport(before, position, piece.owner);
        }
        SettlePiece(piece, position);
        EndPlacement(position);
      }
    }

    /**
     * The middle of HandlePiecePlacement: the piece just put on the board records its cell and
     * the move number at which it was placed, so every piece on the board records its cell.
     */
    method SettlePiece(piece: Piece, position: Position)
      requires board.Valid() && checker.board == board && Supported(board.Occupancy()) && turns.HistoriesOwned()
      requires IsValid(position) && board.Cells()[Index(position)] == piece
      requires forall i | 0 <= i < CellCount && i != Index(position) && board.Cells()[i] != null ::
        board.Cells()[i] != piece && board.Cells()[i].position == PosAt(i)
      modifies piece
      ensures Valid()
      ensures piece.position == position && piece.moveNumber == turns.moveCount
    {
      piece.position := position;
      piece.moveNumber := turns.moveCount;
      KeepsConsistent(position, piece);
    }

    /**
     * The tail of HandlePiecePlacement once the piece is down: a line through the cell filled
     * by the mover ends the game; otherwise the turn passes and removal is due when the new
     * mover's queue has reached the threshold.
     */
    method EndPlacement(position: Position)
      requires Valid()
      modifies this, turns
      ensures Valid()
      ensures turns.xPieceHistory == old(turns.xPieceHistory) && turns.oPieceHistory == old(turns.oPieceHistory)
      ensures turns.movesBeforeRemoval == old(turns.movesBeforeRemoval)
      ensures var who := old(turns.currentPlayer);
        if WinsThrough(checker.winLines, board.Occupancy(), position, who) then
          currentState == GameOver && turns.currentPlayer == who && turns.moveCount == old(turns.moveCount)
        else
          turns.currentPlayer == Opponent(who) && turns.moveCount == old(turns.moveCount) + 1
          && currentState == (if turns.ShouldRemovePiece() then RemovingPiece else old(currentState))
    {
      var won := checker.CheckForWin(position, turns.currentPlayer);
      if won {
        ChangeState(GameOver);
        return;
      }
      turns.AdvanceTurn();
      if turns.ShouldRemovePiece() {
        ChangeState(RemovingPiece);
      }
    }

    /** Placing a fresh piece that records its cell keeps every piece's record right. */
    lemma KeepsConsistent(position: Position, piece: Piece)
      requires board.Valid() && IsValid(position) && piece.position == position
      requires board.Cells()[Index(position)] == piece
      requires forall i | 0 <= i < CellCount && i != Index(position) && board.Cells()[i] != null ::
        board.Cells()[i].position == PosAt(i)
      ensures board.Consistent()
    {
      IndexOfValid(position);
    }

    /**
     * HandlePieceRemoval. Outside RemovingPiece nothing happens, and neither does anything when
     * the board refuses the cell. A removal returns play to Playing, or ends the game when
     * some line is filled by either player. The turn queues are never shortened here.
     */
    method HandlePieceRemoval(position: Position)
      requires Valid()
      modifies this, board.grid
      ensures Valid()
      ensures old(currentState) != RemovingPiece ==> currentState == old(currentState) && unchanged(board.grid)
      ensures old(currentState) == RemovingPiece && !CanTake(old(board.Occupancy()), position) ==>
        currentState == RemovingPiece && unchanged(board.grid)
      ensures old(currentState) == RemovingPiece && CanTake(old(board.Occupancy()), position) ==>
        board.Cells() == old(board.Cells())[Index(position) := null]
        && board.Occupancy() == Put(old(board.Occupancy()), position, None)
        && RemovalSettled(board.Occupancy())
    {
      if currentState != RemovingPiece {
        return;
      }
      ghost var before := board.Occupancy();
      var removed := board.RemovePiece(position);
      if removed {
        TakeKeepsSupport(before, position);
        ChangeState(Playing);
        var over := checker.CheckBoardState();
        if over {
          ChangeState(GameOver);
        }
      }
    }

    /** RestartGame: the board emptied, then InitializeGame. */
    method RestartGame()
      requires Valid()
      modifies this, board.grid, turns, checker
      ensures Valid()
      ensures board.Occupancy() == EmptyGrid() && currentState == Playing
      ensures turns.movesBeforeRemoval == movesBeforeRemoval && turns.currentPlayer == X
      ensures turns.moveCount == 0 && turns.xPieceHistory == [] && turns.oPieceHistory == []
      ensures checker.winLines == Catalogue(checker.enableVerticalWins, checker.enableDiagonal3D)
    {
      board.ClearBoard();
      EmptyGridSupported();
      turns.Reset();
      InitializeGame();
    }

    /** CreatePiece: delegates to the turn bookkeeping. */
    method CreatePiece(playerType: Player) returns (piece: Piece)
      requires Valid()
      modifies turns
      ensures Valid()
      ensures fresh(piece) && piece.owner == playerType
      ensures turns.History(playerType) == old(turns.History(playerType)) + [piece]
      ensures turns.History(Opponent(playerType)) == old(turns.History(Opponent(playerType)))
    {
      piece := turns.CreatePiece(playerType);
      assert Supported(board.Occupancy()) && board.Consistent();
    }

    /** OnPieceRemoved: back to Playing. */
    method OnPieceRemoved()
      modifies this
      ensures currentState == Playing
    {
      currentState := Playing;
    }
  }
}
