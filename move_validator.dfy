/** The move checks the input layer asks before it forwards a click (MoveValidator). */
module Validation {
  import opened GridPositions
  import opened Pieces
  import opened Layout
  import opened Boards
  import opened Turns
  import opened WinLines

  class MoveValidator {
    const board: BoardManager
    const turns: TurnManager

    constructor (board: BoardManager, turns: TurnManager)
      ensures this.board == board && this.turns == turns
    {
      this.board := board;
      this.turns := turns;
    }

    /**
     * ValidateMove: on the board, the asking player's turn, an empty cell, and support below.
     * The board accepts such a placement: PlacePiece succeeds exactly on CanPlace.
     */
    function ValidateMove(position: Position, playerType: Player): (r: bool)
      requires board.Valid()
      reads board.grid, turns
      ensures r <==> CanPlace(board.Occupancy(), position) && turns.currentPlayer == playerType
    {
      if !IsValid(position) then false
      else if turns.currentPlayer != playerType then false
      else if !board.IsPositionEmpty(position) then false
      else if !board.HasSupportBelow(position) then false
      else true
    }

    /**
     * ValidateRemoval: an occupied cell of the board holding the player's piece with nothing
     * on it. Whose turn it is plays no part: the function does not read the turn state.
     */
    function ValidateRemoval(position: Position, playerType: Player): (r: bool)
      requires board.Valid()
      reads board.grid
      ensures r <==> CanTake(board.Occupancy(), position) && Holds(board.Occupancy(), position, playerType)
    {
      if !IsValid(position) || board.IsPositionEmpty(position) then false
      else
        var piece := board.GetPieceAt(position);
        if piece.owner != playerType then false
        else if position.y < 2 && !board.IsPositionEmpty(Above(position)) then false
        else true
    }
  }
}
