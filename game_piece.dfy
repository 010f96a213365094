/** The two players (PlayerType) and the piece objects placed on the board (GamePiece). */
module Pieces {
  import opened GridPositions

  datatype Player = X | O

  /** The other player: how SwitchPlayer and the AI pick the side that is not theirs. */
  function Opponent(p: Player): (q: Player)
    ensures q != p
  {
    if p == X then O else X
  }

  /** Switching sides twice gives the side back. */
  lemma OpponentInvolutive(p: Player, q: Player)
    ensures Opponent(Opponent(p)) == p
    ensures q == p || q == Opponent(p)
  {
  }

  /**
   * A placed piece. Its owner is fixed when the piece is made; the board position and
   * the move number are filled in by whoever places it. Identity matters: turn histories
   * hold references and compare them.
   */
  class Piece {
    const owner: Player
    var position: Position
    var moveNumber: int

    /** Instantiate followed by Initialize(owner): position (0,0,0), move number 0. */
    constructor (owner: Player)
      ensures this.owner == owner && position == Position(0, 0, 0) && moveNumber == 0
    {
      this.owner := owner;
      position := Position(0, 0, 0);
      moveNumber := 0;
    }
  }
}
