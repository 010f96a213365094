/**
 * The computer opponent (AIPlayer). It looks ahead by placing and taking pieces on the live
 * board and undoing each change, scoring the boards it reaches with an alpha-beta search.
 */
module AI {
  import opened Wrappers
  import opened GridPositions
  import opened Pieces
  import opened Layout
  import opened Boards
  import opened Turns
  import opened WinLines
  import opened Game
  import opened Search

  /** The cells of the pieces listed, in order, that have nothing on top of them. */
  function Removable(ps: seq<Piece>, g: Grid): (r: seq<Position>)
    reads ps
    ensures |r| <= |ps|
    ensures forall q | q in r :: IsValid(q) && Exposed(g, q)
    ensures forall piece | piece in ps && IsValid(piece.position) && Exposed(g, piece.position) :: piece.position in r
  {
    if ps == [] then []
    else
      var pos := ps[|ps| - 1].position;
      Removable(ps[..|ps| - 1], g) + (if IsValid(pos) && Exposed(g, pos) then [pos] else [])
  }

  lemma RemovableStep(s: seq<Piece>, piece: Piece, g: Grid)
    ensures Removable(s + [piece], g) == Removable(s, g)
      + (if IsValid(piece.position) && Exposed(g, piece.position) then [piece.position] else [])
  {
    assert (s + [piece])[..|s|] == s;
  }

  /**
   * Filtering a player's pieces of a consistent board, in the board's listing order, gives
   * the player's removal candidates in scan order.
   */
  lemma {:induction false} RemovableIsCandidates(c: seq<Piece?>, ai: Player, n: int)
    requires |c| == CellCount && 0 <= n <= CellCount
    requires forall i | 0 <= i < CellCount :: c[i] != null ==> c[i].position == PosAt(i)
    ensures Removable(OwnedBy(c[..n], ai), OwnersOf(c)) == RemovalsUpTo(OwnersOf(c), ai, n)
  {
    if n > 0 {
      var k := n - 1;
      var g := OwnersOf(c);
      RemovableIsCandidates(c, ai, k);
      OwnedByStep(c, ai, k);
      var here := PosAt(k);
      assert Holds(g, here, ai) <==> c[k] != null && c[k].owner == ai;
      if c[k] != null && c[k].owner == ai {
        RemovableStep(OwnedBy(c[..k], ai), c[k], g);
      } else {
        assert OwnedBy(c[..k], ai) + [] == OwnedBy(c[..k], ai);
      }
    }
  }

  /** Putting cell i back into a copy that differs from the original only there restores it. */
  lemma Restored(before: seq<Piece?>, mid: seq<Piece?>, i: int)
    requires |before| == |mid| && 0 <= i < |before|
    requires forall j | 0 <= j < |before| && j != i :: mid[j] == before[j]
    ensures mid[i := before[i]] == before
  {
  }

  class AIPlayer {
    const game: GameManager
    const board: BoardManager
    const checker: WinConditionChecker
    const turns: TurnManager
    /** The side the AI plays. */
    const aiPlayerType: Player
    /** How many plies Minimax looks ahead below the move being scored. */
    const searchDepth: int

    /** The component with its default settings: it plays O and searches two plies deep. */
    constructor (game: GameManager, board: BoardManager, checker: WinConditionChecker, turns: TurnManager)
      ensures this.game == game && this.board == board && this.checker == checker && this.turns == turns
      ensures aiPlayerType == O && searchDepth == 2
    {
      this.game := game;
      this.board := board;
      this.checker := checker;
      this.turns := turns;
      aiPlayerType := O;
      searchDepth := 2;
    }

    /** GetWinLines: the checker's catalogue. */
    function GetWinLines(): seq<Line>
      reads checker
    {
      checker.winLines
    }

    /** CheckForWin: whether some line of the catalogue is filled by the player. */
    method CheckForWin(playerType: Player) returns (r: bool)
      requires board.Valid()
      ensures r <==> HasLine(checker.winLines, board.Occupancy(), playerType)
    {
      ghost var g := board.Occupancy();
      var winLines := GetWinLines();
      for i := 0 to |winLines|
        invariant forall j | 0 <= j < i :: !LineOwnedBy(g, winLines[j], playerType)
      {
        var line := winLines[i];
        var isWin := true;
        for k := 0 to |line|
          invariant isWin
          invariant forall t | 0 <= t < k :: Holds(g, line[t], playerType)
        {
          var piece := board.GetPieceAt(line[k]);
          if piece == null || piece.owner != playerType {
            assert !Holds(g, line[k], playerType);
            isWin := false;
            break;
          }
        }
        if isWin {
          assert LineOwnedBy(g, line, playerType);
          return true;
        }
      }
      return false;
    }

    /**
     * EvaluateBoard: each line scores +10 or +1 for two or one AI pieces and no opponent
     * piece, -10 or -1 for two or one opponent pieces and no AI piece; the board scores the sum.
     */
    method EvaluateBoard() returns (score: int)
      requires board.Valid()
      ensures score == Evaluate(checker.winLines, board.Occupancy(), aiPlayerType)
    {
      ghost var g := board.Occupancy();
      score := 0;
      var opponentType := if aiPlayerType == X then O else X;
      var winLines := GetWinLines();
      for i := 0 to |winLines|
        invariant score == Evaluate(winLines[..i], g, aiPlayerType)
      {
        var line := winLines[i];
        var aiCount, opponentCount, emptyCount := 0, 0, 0;
        for k := 0 to |line|
          invariant aiCount == Count(g, line[..k], Some(aiPlayerType))
          invariant opponentCount == Count(g, line[..k], Some(opponentType))
          invariant emptyCount == Count(g, line[..k], None)
        {
          var piece := board.GetPieceAt(line[k]);
          assert line[..k + 1][..k] == line[..k];
          if piece == null {
            emptyCount := emptyCount + 1;
          } else if piece.owner == aiPlayerType {
            aiCount := aiCount + 1;
          } else {
            OpponentInvolutive(aiPlayerType, piece.owner);
            opponentCount := opponentCount + 1;
          }
        }
        assert line[..|line|] == line;
        if opponentCount == 0 {
          if aiCount == 2 {
            score := score + 10;
          }
          if aiCount == 1 {
            score := score + 1;
          }
        }
        if aiCount == 0 {
          if opponentCount == 2 {
            score := score - 10;
          }
          if opponentCount == 1 {
            score := score - 1;
          }
        }
        assert winLines[..i + 1][..i] == winLines[..i];
      }
      assert winLines[..|winLines|] == winLines;
    }

    /** GetValidMoves: the empty cells with support below, layer by layer, row by row. */
    method GetValidMoves() returns (validMoves: seq<Position>)
      requires board.Valid()
      ensures validMoves == ValidMoves(board.Occupancy())
    {
      ghost var g := board.Occupancy();
      ghost var scanned := 0;
      validMoves := [];
      for y := 0 to 3
        invariant scanned == 9 * y && validMoves == MovesUpTo(g, scanned)
      {
        for z := 0 to 3
          invariant scanned == 9 * y + 3 * z && validMoves == MovesUpTo(g, scanned)
        {
          for x := 0 to 3
            invariant scanned == 9 * y + 3 * z + x && validMoves == MovesUpTo(g, scanned)
          {
            var pos := Position(x, y, z);
            MovesStep(g, x, y, z);
            if board.IsPositionEmpty(pos) && board.HasSupportBelow(pos) {
              validMoves := validMoves + [pos];
            }
            scanned := scanned + 1;
          }
        }
      }
    }

    /** CanRemovePiece: nothing sits directly on the cell (the same test as the removal handler's). */
    function CanRemovePiece(position: Position): (r: bool)
      requires board.Valid() && (position.y < 2 ==> IsValid(Above(position)))
      reads board.grid
      ensures r <==> position.y >= 2 || !Occupied(board.Occupancy(), Above(position))
      ensures IsValid(position) ==> (r <==> Exposed(board.Occupancy(), position))
    {
      if position.y < 2 then board.IsPositionEmpty(Position(position.x, position.y + 1, position.z))
      else true
    }

    /** SimulatePlacePiece: the board's trial placement, handing back what then sits in the cell. */
    method SimulatePlacePiece(position: Position, playerType: Player) returns (piece: Piece?)
      requires board.Valid()
      modifies board.grid
      ensures CanPlace(old(board.Occupancy()), position) ==>
        && board.Occupancy() == Put(old(board.Occupancy()), position, Some(playerType))
        && piece == board.Cells()[Index(position)] && piece != null && fresh(piece) && piece.owner == playerType
        && forall i | 0 <= i < CellCount && i != Index(position) :: board.Cells()[i] == old(board.Cells())[i]
      ensures !CanPlace(old(board.Occupancy()), position) ==> board.Cells() == old(board.Cells())
    {
      var placed := board.SimulatePlacePiece(position, playerType);
      piece := board.GetPieceAt(position);
    }

    /** UndoSimulatedMove: the board's undo of a trial placement. */
    method UndoSimulatedMove(position: Position)
      requires board.Valid()
      modifies board.grid
      ensures IsValid(position) ==> board.Cells() == old(board.Cells())[Index(position) := null]
      ensures !IsValid(position) ==> board.Cells() == old(board.Cells())
    {
      board.UndoSimulatedMove(position);
    }

    /** SimulateRemovePiece: the board's trial removal, whether or not the piece is covered. */
    method SimulateRemovePiece(position: Position)
      requires board.Valid()
      modifies board.grid
      ensures IsValid(position) && Occupied(old(board.Occupancy()), position) ==>
        && board.Cells() == old(board.Cells())[Index(position) := null]
        && board.Occupancy() == Put(old(board.Occupancy()), position, None)
      ensures !(IsValid(position) && Occupied(old(board.Occupancy()), position)) ==> board.Cells() == old(board.Cells())
    {
      var removed := board.SimulateRemovePiece(position);
    }

    /** UndoSimulatedRemoval: the board's undo of a trial removal. */
    method UndoSimulatedRemoval(position: Position, piece: Piece?)
      requires board.Valid()
      modifies board.grid
      ensures IsValid(position) && old(board.Cells())[Index(position)] == null ==>
        board.Cells() == old(board.Cells())[Index(position) := piece]
      ensures !(IsValid(position) && old(board.Cells())[Index(position)] == null) ==> board.Cells() == old(board.Cells())
    {
      board.UndoSimulatedRemoval(position, piece);
    }

    /**
     * FindBestMove: the move BestMove prescribes for the live board, found by trying each
     * candidate on the board and undoing it, so that the board is left as it was.
     */
    method FindBestMove() returns (bestMove: Position)
      requires board.Valid()
      modifies board.grid
      ensures board.Cells() == old(board.Cells())
      ensures bestMove == BestMove(checker.winLines, old(board.Occupancy()), aiPlayerType, searchDepth, turns.moveCount)
    {
      ghost var g := board.Occupancy();
      ghost var cells := board.Cells();
      ghost var lines := checker.winLines;
      var validMoves := GetValidMoves();
      if |validMoves| == 0 {
        return Position(0, 0, 0);
      }
      if turns.moveCount < 2 {
        for k := 0 to |validMoves|
          invariant forall j | 0 <= j < k :: !Preferred(validMoves[j])
        {
          var move := validMoves[k];
          if move.x == 1 && move.y == 0 && move.z == 1 {
            assert FirstPreferred(validMoves) == k;
            return move;
          }
          if move.y == 0 && (move.x == 0 || move.x == 2) && (move.z == 0 || move.z == 2) {
            assert FirstPreferred(validMoves) == k;
            return move;
          }
        }
      }
      bestMove := WeighMoves(validMoves);
    }

    /**
     * The minimax half of FindBestMove: each candidate is played on the board, scored, and
     * undone; the first one with the highest score wins.
     */
    method WeighMoves(validMoves: seq<Position>) returns (bestMove: Position)
      requires board.Valid() && validMoves == ValidMoves(board.Occupancy()) && |validMoves| > 0
      modifies board.grid
      ensures board.Cells() == old(board.Cells())
      ensures bestMove == validMoves[ScanBest(MoveScores(checker.winLines, old(board.Occupancy()),
                                                aiPlayerType, searchDepth, validMoves), MinValue).0]
    {
      ghost var g := board.Occupancy();
      ghost var cells := board.Cells();
      ghost var lines := checker.winLines;
      ghost var scores := MoveScores(lines, g, aiPlayerType, searchDepth, validMoves);
      ghost var bestIndex := 0;
      var bestScore := MinValue;
      bestMove := validMoves[0];
      for k := 0 to |validMoves|
        invariant board.Cells() == cells
        invariant (bestIndex, bestScore) == ScanBest(scores[..k], MinValue)
        invariant 0 <= bestIndex < |validMoves| && bestMove == validMoves[bestIndex]
      {
        var move := validMoves[k];
        assert move in validMoves && CanPlace(g, move);
        var score := TryMove(move, aiPlayerType, searchDepth, false, MinValue, MaxValue);
        assert score == scores[k];
        ScanBestStep(scores, k, MinValue);
        if score > bestScore {
          bestScore := score;
          bestMove := move;
          bestIndex := k;
        }
      }
      assert scores[..|validMoves|] == scores;
    }

    /**
     * FindBestRemoval: the removal BestRemoval prescribes for the live board, found by taking
     * each candidate off the board and putting it back, so that the board is left as it was.
     */
    method FindBestRemoval() returns (bestRemoval: Position)
      requires board.Valid() && board.Consistent()
      modifies board.grid
      ensures board.Cells() == old(board.Cells())
      ensures bestRemoval == BestRemoval(checker.winLines, old(board.Occupancy()), aiPlayerType, searchDepth)
    {
      ghost var g := board.Occupancy();
      ghost var cells := board.Cells();
      ghost var lines := checker.winLines;
      var validRemovals := CollectRemovals();
      if |validRemovals| == 0 {
        return Position(0, 0, 0);
      }
      if |validRemovals| == 1 {
        return validRemovals[0];
      }
      bestRemoval := WeighRemovals(validRemovals);
    }

    /**
     * The second half of FindBestRemoval: each candidate is taken off the board, scored, and put
     * back; the first one with the highest score wins.
     */
    method WeighRemovals(validRemovals: seq<Position>) returns (bestRemoval: Position)
      requires board.Valid() && |validRemovals| > 0
      requires forall q | q in validRemovals :: IsValid(q) && Occupied(board.Occupancy(), q)
      modifies board.grid
      ensures board.Cells() == old(board.Cells())
      ensures bestRemoval == validRemovals[ScanBest(RemovalScores(checker.winLines, old(board.Occupancy()),
                                                     aiPlayerType, searchDepth, validRemovals), MinValue).0]
    {
      ghost var g := board.Occupancy();
      ghost var cells := board.Cells();
      ghost var lines := checker.winLines;
      ghost var scores := RemovalScores(lines, g, aiPlayerType, searchDepth, validRemovals);
      ghost var bestIndex := 0;
      var bestScore := MinValue;
      bestRemoval := validRemovals[0];
      for k := 0 to |validRemovals|
        invariant board.Cells() == cells
        invariant (bestIndex, bestScore) == ScanBest(scores[..k], MinValue)
        invariant 0 <= bestIndex < |validRemovals| && bestRemoval == validRemovals[bestIndex]
      {
        var position := validRemovals[k];
        assert position in validRemovals && IsValid(position) && Occupied(g, position);
        IndexOfValid(position);
        var removedPiece := board.GetPieceAt(position);
        SimulateRemovePiece(position);
        var score := Minimax(searchDepth, false, MinValue, MaxValue);
        ghost var mid := board.Cells();
        UndoSimulatedRemoval(position, removedPiece);
        Restored(cells, mid, Index(position));
        assert score == scores[k];
        ScanBestStep(scores, k, MinValue);
        if score > bestScore {
          bestScore := score;
          bestRemoval := position;
          bestIndex := k;
        }
      }
      assert scores[..|validRemovals|] == scores;
    }

    /** The first half of FindBestRemoval: the AI's pieces with nothing on top, in listing order. */
    method CollectRemovals() returns (validRemovals: seq<Position>)
      requires board.Valid() && board.Consistent()
      ensures validRemovals == RemovalCandidates(board.Occupancy(), aiPlayerType)
    {
      var playerPieces := board.GetPlayerPieces(aiPlayerType);
      forall q | q in playerPieces ensures IsValid(q.position) {
        board.OwnedPieceRecordsCell(aiPlayerType, q);
      }
      validRemovals := KeepRemovable(playerPieces);
      assert validRemovals == RemovalCandidates(board.Occupancy(), aiPlayerType) by {
        RemovableIsCandidates(board.Cells(), aiPlayerType, CellCount);
        assert board.Cells()[..CellCount] == board.Cells();
      }
    }

    /** The loop of CollectRemovals: the cells of the listed pieces that CanRemovePiece accepts. */
    method KeepRemovable(playerPieces: seq<Piece>) returns (validRemovals: seq<Position>)
      requires board.Valid() && forall q | q in playerPieces :: IsValid(q.position)
      ensures validRemovals == Removable(playerPieces, board.Occupancy())
    {
      ghost var g := board.Occupancy();
      validRemovals := [];
      for k := 0 to |playerPieces|
        invariant validRemovals == Removable(playerPieces[..k], g)
      {
        var piece := playerPieces[k];
        assert piece in playerPieces;
        assert Removable(playerPieces[..k + 1], g)
            == Removable(playerPieces[..k], g) + (if Exposed(g, piece.position) then [piece.position] else []) by {
          RemovableStep(playerPieces[..k], piece, g);
          assert playerPieces[..k + 1] == playerPieces[..k] + [piece];
        }
        if CanRemovePiece(piece.position) {
          validRemovals := validRemovals + [piece.position];
        }
      }
      assert playerPieces[..|playerPieces|] == playerPieces;
    }

    /**
     * MakeAIMove, without its delay: the move FindBestMove picks is handed to the game like a
     * player's click. Outside play nothing changes. During play a new piece of the player to
     * move is queued in any case; on a board that is not full it lands on the chosen cell and
     * the placement settles as HandlePiecePlacement prescribes. On a full board the fallback
     * (0,0,0) is refused, so only the queue has grown.
     */
    method MakeAIMove()
      requires game.Valid() && game.board == board && game.checker == checker && game.turns == turns
      modifies game, board.grid, turns
      ensures game.Valid()
      ensures old(game.currentState) != Playing ==>
        game.currentState == old(game.currentState) && board.Cells() == old(board.Cells()) && unchanged(turns)
      ensures var who := old(turns.currentPlayer);
        old(game.currentState) == Playing ==>
          game.QueuedOne(who, old(turns.History(who)), old(turns.History(Opponent(who))))
      ensures var g := old(board.Occupancy());
        var b := BestMove(old(checker.winLines), g, aiPlayerType, searchDepth, old(turns.moveCount));
        old(game.currentState) == Playing && Empties(g) > 0 ==>
          CanPlace(g, b) && board.Occupancy() == Put(g, b, Some(old(turns.currentPlayer)))
          && game.PlacementSettled(board.Occupancy(), b, old(turns.currentPlayer), old(turns.moveCount))
      ensures old(game.currentState) == Playing && Empties(old(board.Occupancy())) == 0 ==>
        board.Cells() == old(board.Cells()) && game.currentState == Playing
        && turns.currentPlayer == old(turns.currentPlayer) && turns.moveCount == old(turns.moveCount)
    {
      ghost var g := board.Occupancy();
      ghost var pieces := board.PieceSet();
      ghost var who := turns.currentPlayer;
      ghost var playing := game.currentState == Playing;
      var bestMove := FindBestMove();
      assert board.Occupancy() == g && board.PieceSet() == pieces;
      assert game.Valid();
      MovesUntilFull(g);
      if ValidMoves(g) != [] {
        BestMoveIsLegal(checker.winLines, g, aiPlayerType, searchDepth, turns.moveCount);
      }
      if Empties(g) == 0 {
        FullRefuses(g, bestMove);
      }
      game.HandlePiecePlacement(bestMove);
      if playing && Empties(g) > 0 {
        assert CanPlace(g, bestMove);
        assert board.Occupancy() == Put(g, bestMove, Some(who));
      }
    }

    /**
     * RemoveAIPiece, without its delay: the removal FindBestRemoval picks is handed to the game
     * like a player's click. Outside the removal phase nothing changes. In it, when the AI has
     * a piece it may take, that piece leaves the board and the phase settles as
     * HandlePieceRemoval prescribes. When it has none, the fallback (0,0,0) goes to the game,
     * which takes whatever uncovered piece sits there, the opponent's included.
     */
    method RemoveAIPiece()
      requires game.Valid() && game.board == board && game.checker == checker && game.turns == turns
      modifies game, board.grid
      ensures game.Valid() && unchanged(turns)
      ensures old(game.currentState) != RemovingPiece ==>
        game.currentState == old(game.currentState) && board.Cells() == old(board.Cells())
      ensures var g := old(board.Occupancy());
        var b := BestRemoval(old(checker.winLines), g, aiPlayerType, searchDepth);
        old(game.currentState) == RemovingPiece && RemovalCandidates(g, aiPlayerType) != [] ==>
          CanTake(g, b) && Holds(g, b, aiPlayerType) && board.Occupancy() == Put(g, b, None)
          && game.RemovalSettled(board.Occupancy())
      ensures var g := old(board.Occupancy());
        var origin := Position(0, 0, 0);
        old(game.currentState) == RemovingPiece && RemovalCandidates(g, aiPlayerType) == [] ==>
          if CanTake(g, origin) then
            board.Occupancy() == Put(g, origin, None) && game.RemovalSettled(board.Occupancy())
          else
            board.Cells() == old(board.Cells()) && game.currentState == RemovingPiece
    {
      ghost var g := board.Occupancy();
      ghost var pieces := board.PieceSet();
      var bestRemoval := FindBestRemoval();
      assert board.Occupancy() == g && board.PieceSet() == pieces;
      assert game.Valid();
      if RemovalCandidates(g, aiPlayerType) != [] {
        BestRemovalIsLegal(checker.winLines, g, aiPlayerType, searchDepth);
      }
      game.HandlePieceRemoval(bestRemoval);
    }

    /**
     * Minimax: the alpha-beta search from the live board, which it leaves exactly as it found it
     * (every trial placement is undone, and the cells hold the same pieces afterwards).
     */
    method Minimax(depth: int, isMaximizing: bool, alpha: int, beta: int) returns (score: int)
      requires board.Valid()
      modifies board.grid
      ensures board.Cells() == old(board.Cells())
      ensures score == AlphaBeta(checker.winLines, old(board.Occupancy()), aiPlayerType, depth, isMaximizing, alpha, beta)
      decreases Empties(board.Occupancy()), 2
    {
      ghost var g := board.Occupancy();
      var aiWins := CheckForWin(aiPlayerType);
      if aiWins {
        return 100 + depth;
      }
      var opponentType := if aiPlayerType == X then O else X;
      var opponentWins := CheckForWin(opponentType);
      if opponentWins {
        return -100 - depth;
      }
      if depth == 0 {
        score := EvaluateBoard();
        return;
      }
      if isMaximizing {
        score := MaximizingTurn(depth, alpha, beta);
      } else {
        score := MinimizingTurn(depth, alpha, beta);
      }
    }

    /** The AI's side of Minimax: every candidate placement in turn until beta <= alpha. */
    method MaximizingTurn(depth: int, alpha: int, beta: int) returns (maxScore: int)
      requires board.Valid()
      modifies board.grid
      ensures board.Cells() == old(board.Cells())
      ensures maxScore == MaxLoop(checker.winLines, old(board.Occupancy()), aiPlayerType, depth,
                                  ValidMoves(old(board.Occupancy())), MinValue, alpha, beta)
      decreases Empties(board.Occupancy()), 1
    {
      ghost var g := board.Occupancy();
      ghost var cells := board.Cells();
      ghost var lines := checker.winLines;
      maxScore := MinValue;
      var a := alpha;
      var validMoves := GetValidMoves();
      var k := 0;
      while k < |validMoves|
        invariant 0 <= k <= |validMoves|
        invariant board.Cells() == cells
        invariant MaxLoop(lines, g, aiPlayerType, depth, validMoves[k..], maxScore, a, beta)
               == MaxLoop(lines, g, aiPlayerType, depth, validMoves, MinValue, alpha, beta)
      {
        var move := validMoves[k];
        assert validMoves[k..][0] == move && validMoves[k..][1..] == validMoves[k + 1..];
        assert move in validMoves && CanPlace(g, move);
        var score := TryMove(move, aiPlayerType, depth - 1, false, a, beta);
        maxScore := Max(maxScore, score);
        a := Max(a, score);
        if beta <= a {
          break;
        }
        k := k + 1;
      }
    }

    /** The opponent's side of Minimax: every candidate placement in turn until beta <= alpha. */
    method MinimizingTurn(depth: int, alpha: int, beta: int) returns (minScore: int)
      requires board.Valid()
      modifies board.grid
      ensures board.Cells() == old(board.Cells())
      ensures minScore == MinLoop(checker.winLines, old(board.Occupancy()), aiPlayerType, depth,
                                  ValidMoves(old(board.Occupancy())), MaxValue, alpha, beta)
      decreases Empties(board.Occupancy()), 1
    {
      ghost var g := board.Occupancy();
      ghost var cells := board.Cells();
      ghost var lines := checker.winLines;
      var opponentType := if aiPlayerType == X then O else X;
      assert opponentType == Opponent(aiPlayerType);
      minScore := MaxValue;
      var b := beta;
      var validMoves := GetValidMoves();
      var k := 0;
      while k < |validMoves|
        invariant 0 <= k <= |validMoves|
        invariant board.Cells() == cells
        invariant MinLoop(lines, g, aiPlayerType, depth, validMoves[k..], minScore, alpha, b)
               == MinLoop(lines, g, aiPlayerType, depth, validMoves, MaxValue, alpha, beta)
      {
        var move := validMoves[k];
        assert validMoves[k..][0] == move && validMoves[k..][1..] == validMoves[k + 1..];
        assert move in validMoves && CanPlace(g, move);
        var score := TryMove(move, opponentType, depth - 1, true, alpha, b);
        minScore := Min(minScore, score);
        b := Min(b, score);
        if b <= alpha {
          break;
        }
        k := k + 1;
      }
    }

    /**
     * One trial of the search: the player's piece goes on the cell, Minimax scores the board,
     * and the move is undone, so that the board holds the same pieces as before.
     */
    method TryMove(move: Position, playerType: Player, depth: int, isMaximizing: bool, alpha: int, beta: int)
      returns (score: int)
      requires board.Valid() && CanPlace(board.Occupancy(), move)
      modifies board.grid
      ensures board.Cells() == old(board.Cells())
      ensures score == AlphaBeta(checker.winLines, Put(old(board.Occupancy()), move, Some(playerType)),
                                 aiPlayerType, depth, isMaximizing, alpha, beta)
      decreases Empties(board.Occupancy()), 0
    {
      ghost var g := board.Occupancy();
      ghost var cells := board.Cells();
      Fill(g, move, playerType);
      IndexOfValid(move);
      var piece := SimulatePlacePiece(move, playerType);
      score := Minimax(depth, isMaximizing, alpha, beta);
      ghost var mid := board.Cells();
      UndoSimulatedMove(move);
      Restored(cells, mid, Index(move));
    }
  }
}
