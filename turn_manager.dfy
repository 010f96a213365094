/**
 * Turn bookkeeping (TurnManager): whose turn it is, how many moves were made, and for each
 * player the queue of pieces they created, oldest first.
 */
module Turns {
  import opened GridPositions
  import opened Pieces

  /** A queue with every occurrence of x taken out, the rest in the same order. */
  function Without(s: seq<Piece>, x: Piece): (r: seq<Piece>)
    ensures |r| <= |s|
  {
    if s == [] then []
    else (if s[0] != x then [s[0]] else []) + Without(s[1..], x)
  }

  /** Taking x out of a concatenation takes it out of each part: relative order is kept. */
  lemma {:induction false} WithoutConcat(a: seq<Piece>, b: seq<Piece>, x: Piece)
    ensures Without(a + b, x) == Without(a, x) + Without(b, x)
  {
    if a == [] {
      assert a + b == b;
    } else {
      assert (a + b)[0] == a[0];
      assert (a + b)[1..] == a[1..] + b;
      WithoutConcat(a[1..], b, x);
    }
  }

  /** Exactly the occurrences of x go; every other element keeps its multiplicity. */
  lemma {:induction false} WithoutCounts(s: seq<Piece>, x: Piece)
    ensures multiset(Without(s, x)) == multiset(s)[x := 0]
  {
    if s != [] {
      WithoutCounts(s[1..], x);
      assert s == [s[0]] + s[1..];
    }
  }

  /** A queue without x does not hold x, and one that never held x is left as it is. */
  lemma {:induction false} WithoutMembers(s: seq<Piece>, x: Piece)
    ensures x !in Without(s, x)
    ensures forall q :: q in Without(s, x) <==> q in s && q != x
    ensures x !in s ==> Without(s, x) == s
  {
    if s != [] {
      WithoutMembers(s[1..], x);
    }
  }

  /** Dropping a piece from a queue of one player's pieces leaves a queue of that player's pieces. */
  lemma {:induction false} WithoutKeepsOwner(s: seq<Piece>, x: Piece, p: Player)
    requires forall i | 0 <= i < |s| :: s[i].owner == p
    ensures forall i | 0 <= i < |Without(s, x)| :: Without(s, x)[i].owner == p
  {
    if s != [] {
      WithoutKeepsOwner(s[1..], x, p);
      var head: seq<Piece> := if s[0] != x then [s[0]] else [];
      assert Without(s, x) == head + Without(s[1..], x);
    }
  }

  class TurnManager {
    var movesBeforeRemoval: int
    var currentPlayer: Player
    var moveCount: int
    var xPieceHistory: seq<Piece>
    var oPieceHistory: seq<Piece>

    /** The queue of one player's pieces. */
    function History(p: Player): seq<Piece>
      reads this
    {
      if p == X then xPieceHistory else oPieceHistory
    }

    /** Each queue holds pieces of its own player only. */
    ghost predicate HistoriesOwned()
      reads this
    {
      (forall i | 0 <= i < |xPieceHistory| :: xPieceHistory[i].owner == X)
      && (forall i | 0 <= i < |oPieceHistory| :: oPieceHistory[i].owner == O)
    }

    /** The component as loaded: threshold 6, X to play, nothing made yet. */
    constructor ()
      ensures movesBeforeRemoval == 6 && currentPlayer == X && moveCount == 0
      ensures xPieceHistory == [] && oPieceHistory == [] && HistoriesOwned()
    {
      movesBeforeRemoval := 6;
      currentPlayer := X;
      moveCount := 0;
      xPieceHistory := [];
      oPieceHistory := [];
    }

    /** Initialize: store the threshold, then Reset. */
    method Initialize(removalThreshold: int)
      modifies this
      ensures movesBeforeRemoval == removalThreshold
      ensures currentPlayer == X && moveCount == 0 && xPieceHistory == [] && oPieceHistory == []
      ensures HistoriesOwned()
    {
      movesBeforeRemoval := removalThreshold;
      Reset();
    }

    /** Reset: X to play, no moves, both queues empty; the threshold stays. */
    method Reset()
      modifies this
      ensures currentPlayer == X && moveCount == 0 && xPieceHistory == [] && oPieceHistory == []
      ensures movesBeforeRemoval == old(movesBeforeRemoval) && HistoriesOwned()
    {
      currentPlayer := X;
      moveCount := 0;
      xPieceHistory := [];
      oPieceHistory := [];
    }

    /**
     * CreatePiece: a new piece of the player, at the back of that player's queue; the other
     * queue, the turn and the count do not change.
     */
    method CreatePiece(playerType: Player) returns (piece: Piece)
      modifies this
      ensures fresh(piece) && piece.owner == playerType
      ensures piece.position == Position(0, 0, 0) && piece.moveNumber == 0
      ensures History(playerType) == old(History(playerType)) + [piece]
      ensures History(Opponent(playerType)) == old(History(Opponent(playerType)))
      ensures currentPlayer == old(currentPlayer) && moveCount == old(moveCount)
      ensures movesBeforeRemoval == old(movesBeforeRemoval)
      ensures old(HistoriesOwned()) ==> HistoriesOwned()
    {
      piece := new Piece(playerType);
      if playerType == X {
        xPieceHistory := xPieceHistory + [piece];
      } else {
        oPieceHistory := oPieceHistory + [piece];
      }
    }

    method IncrementMoveCount()
      modifies this
      ensures moveCount == old(moveCount) + 1
      ensures currentPlayer == old(currentPlayer) && movesBeforeRemoval == old(movesBeforeRemoval)
      ensures xPieceHistory == old(xPieceHistory) && oPieceHistory == old(oPieceHistory)
    {
      moveCount := moveCount + 1;
    }

    method SwitchPlayer()
      modifies this
      ensures currentPlayer == Opponent(old(currentPlayer))
      ensures moveCount == old(moveCount) && movesBeforeRemoval == old(movesBeforeRemoval)
      ensures xPieceHistory == old(xPieceHistory) && oPieceHistory == old(oPieceHistory)
    {
      currentPlayer := if currentPlayer == X then O else X;
    }

    /** AdvanceTurn: one more move and the other player to play; the queues stay. */
    method AdvanceTurn()
      modifies this
      ensures moveCount == old(moveCount) + 1
      ensures currentPlayer == Opponent(old(currentPlayer))
      ensures movesBeforeRemoval == old(movesBeforeRemoval)
      ensures xPieceHistory == old(xPieceHistory) && oPieceHistory == old(oPieceHistory)
    {
      IncrementMoveCount();
      SwitchPlayer();
    }

    /** ShouldRemovePiece: the player to move has made at least the threshold of pieces. */
    function ShouldRemovePiece(): (r: bool)
      reads this
      ensures r <==> |History(currentPlayer)| >= movesBeforeRemoval
    {
      |if currentPlayer == X then xPieceHistory else oPieceHistory| >= movesBeforeRemoval
    }

    /** GetOldestPiece: the front of the player's queue, nothing when it is empty. */
    function GetOldestPiece(playerType: Player): (piece: Piece?)
      reads this
      ensures piece == null <==> History(playerType) == []
      ensures piece != null ==> piece == History(playerType)[0]
    {
      var history := if playerType == X then xPieceHistory else oPieceHistory;
      if |history| > 0 then history[0] else null
    }

    /**
     * RemovePieceFromHistory: drains the owner's queue into a new one, skipping every
     * reference to the piece; the other queue is untouched.
     */
    method RemovePieceFromHistory(piece: Piece)
      modifies this
      ensures History(piece.owner) == Without(old(History(piece.owner)), piece)
      ensures History(Opponent(piece.owner)) == old(History(Opponent(piece.owner)))
      ensures currentPlayer == old(currentPlayer) && moveCount == old(moveCount)
      ensures movesBeforeRemoval == old(movesBeforeRemoval)
      ensures old(HistoriesOwned()) ==> HistoriesOwned()
    {
      var history := if piece.owner == X then xPieceHistory else oPieceHistory;
      ghost var start := history;
      var newHistory: seq<Piece> := [];
      while |history| > 0
        invariant newHistory + Without(history, piece) == Without(start, piece)
      {
        var current := history[0];
        assert Without(history, piece) == (if current != piece then [current] else []) + Without(history[1..], piece);
        history := history[1..];
        if current != piece {
          newHistory := newHistory + [current];
        }
      }
      assert newHistory == Without(start, piece);
      if HistoriesOwned() {
        WithoutKeepsOwner(start, piece, piece.owner);
      }
      if piece.owner == X {
        xPieceHistory := newHistory;
      } else {
        oPieceHistory := newHistory;
      }
    }

    method CreatePieceForCurrentPlayer() returns (piece: Piece)
      modifies this
      ensures fresh(piece) && piece.owner == old(currentPlayer)
      ensures History(currentPlayer) == old(History(currentPlayer)) + [piece]
      ensures History(Opponent(currentPlayer)) == old(History(Opponent(currentPlayer)))
      ensures currentPlayer == old(currentPlayer) && moveCount == old(moveCount)
      ensures movesBeforeRemoval == old(movesBeforeRemoval)
      ensures old(HistoriesOwned()) ==> HistoriesOwned()
    {
      piece := CreatePiece(currentPlayer);
    }
  }
}
