# Gravity tic-tac-toe on a 3×3×3 cube, modelled in Dafny

This project models the rules engine of a Unity game of three-dimensional tic-tac-toe.
Play happens on a 3×3×3 cube, and pieces need support: a piece may go on the bottom layer
or on top of another piece. The first player to fill a line of three cells wins. Once a
player has made a set number of pieces (six by default), every later turn begins with that
player taking one of their own uncovered pieces off the board. The project also models the
computer opponent, which runs an alpha-beta minimax search two plies deep, and the input
handler that turns a click into a placement or a removal.

The model follows the components of the game one by one:

- `GridPositions` (`grid_position.dfy`): the coordinate struct, its equality, hash code and
  text form. The board scans its cells layer by layer (`y`), then row by row (`z`), then along
  the row (`x`). `Index` and `PosAt` number the cells in that order.
- `Decimal` (`decimal.dfy`): `int.ToString` and `int.Parse`, as the position's text form and
  the cell-name parser use them.
- `Pieces` (`game_piece.dfy`): the two players and the piece object.
- `Layout` (`layout.dfy`): the board as a value, a sequence of 27 owners in scan order. It
  also holds the guards `CanPlace` and `CanTake` and the stacking invariant `Supported`.
- `Boards` (`board_manager.dfy`): `BoardManager`, a class over a 3×3×3 array of pieces plus
  the snapshot array the simulation methods use. Its views `Cells()` and `Occupancy()` tie the
  array to the value model.
- `WinLines` (`win_lines.dfy`): the catalogue of winning lines and how the two flags shape it.
  It also holds the line queries of `WinConditionChecker`.
- `Turns` (`turn_manager.dfy`): `TurnManager`, with the player to move, the move count and
  the two piece queues.
- `Validation` (`move_validator.dfy`): `MoveValidator`.
- `Game` (`game_manager.dfy`): `GameManager` and its state machine
  (Menu, Playing, RemovingPiece, GameOver).
- `CascadeRules` (`cascade.dfy`) and `Removal` (`piece_removal.dfy`): the removal handler and
  its cascade of unsupported pieces, first as a value and then on the board object.
- `Search` (`search.dfy`): the evaluation, the candidate lists, alpha-beta search, plain
  minimax, and the choice of move and of removal, all as functions.
- `AI` (`ai_player.dfy`): `AIPlayer`. Its methods try moves on the live board and undo them,
  and each is proved against the functions of `Search`.
- `Input` (`input_handler.dfy`): `string.Replace`, `string.Split`, the cell-name parser and
  `InputHandler`'s dispatch of a click.

Some notes on how the model reads the code:

- **Line counts.** The comments in `Assets/Scripts/Core/WinConditionChecker.cs` speak of
  "27 lines" and "18" layer diagonals. The code makes 9 + 9 lines along x and z, 9 columns when
  vertical wins are on, 6 layer diagonals (two per layer) and 4 space diagonals when 3D
  diagonals are on: 24, 28, 33 or 37 lines. The model follows the code (`Catalogue`).
- **Columns.** `GenerateVerticalLines` adds nothing. The columns come from
  `GenerateStraightLines` when vertical wins are on, so no line appears twice
  (`CatalogueDistinct`).
- **Opening.** In the first two moves the AI looks for a preferred cell: the centre or a corner
  of the bottom layer. The loop returns the first preferred cell in scan order. So while
  (0,0,0) is free the AI takes it, even with the centre free (`OpeningTakesFirstCorner`).
- **Search scores.** Scores are compared with `>`, so among moves of equal value the first in
  scan order wins (`BestMoveMaximises`, `BestRemovalMaximises`).
- **Pruning.** Pruning never changes the result of the search started with the full 32-bit
  window (`FullWindowIsMinimax`).
- **Placement.** `GameManager.HandlePiecePlacement` queues the new piece in the mover's turn
  history before it asks the board. A refused placement still leaves that piece in the queue.
- **Removal.** `GameManager.HandlePieceRemoval` takes the piece through
  `BoardManager.RemovePiece` directly. It neither checks ownership, nor cascades, nor shortens
  the turn queue. The model states exactly that.

## Model

| member | source | states |
|---|---|---|
| GridPositions.PosAt | Assets/Scripts/Core/BoardManager.cs:120-133 | the cell scanned at step i is on the board and has scan index i |
| GridPositions.IndexOfValid | Assets/Scripts/Core/BoardManager.cs:120-133 | every cell of the board is scanned exactly at its index, which lies in 0..26 |
| GridPositions.IndexInjective | Assets/Scripts/Core/BoardManager.cs:120-133 | distinct cells are scanned at distinct steps |
| GridPositions.ValidPositions | Assets/Scripts/GameLogic/GridPosition.cs:15 | exactly 27 positions are valid, and they are the cells the scan visits |
| GridPositions.EqIsEquality | Assets/Scripts/GameLogic/GridPosition.cs:22-30 | operator == holds exactly for equal positions, and != exactly for different ones |
| GridPositions.EqIsEquivalence | Assets/Scripts/GameLogic/GridPosition.cs:22-25 | operator == is reflexive, symmetric and transitive |
| GridPositions.EqualsAgreesWithEq | Assets/Scripts/GameLogic/GridPosition.cs:32-39 | Equals(object) is false for any other type and agrees with == on a boxed position |
| GridPositions.HashRespectsEq | Assets/Scripts/GameLogic/GridPosition.cs:41-44 | positions equal under == have equal hash codes |
| GridPositions.HashOnBoard | Assets/Scripts/GameLogic/GridPosition.cs:41-44 | on the board the hash is x + 4y: z is shifted away, so cells that differ only in z collide |
| GridPositions.ToString | Assets/Scripts/GameLogic/GridPosition.cs:17-20 | the text starts with '(' and ends with ')' and has at least seven characters |
| GridPositions.ToStringOnBoard | Assets/Scripts/GameLogic/GridPosition.cs:17-20 | a board cell prints as the seven characters (x,y,z) with one digit each |
| Decimal.IntToString | Assets/Scripts/GameLogic/GridPosition.cs:19 | a minus sign exactly for negative values, then only digits |
| Decimal.ParseInt | Assets/Scripts/Input/InputHandler.cs:121-123 | int.Parse succeeds only with a 32-bit value, white space around it and NUL characters after it allowed; otherwise it reports a format or overflow error |
| Decimal.ParseIntToString | Assets/Scripts/Input/InputHandler.cs:121-123 | int.Parse reads back exactly what int.ToString wrote, for every 32-bit value |
| Decimal.ParseRejectsNonDigit | Assets/Scripts/Input/InputHandler.cs:121-123 | a text whose first character is not white space, and which holds after it a character that is neither a digit, white space nor NUL, never parses |
| Decimal.ParseIgnoresTrailingNuls | Assets/Scripts/Input/InputHandler.cs:121-123 | NUL characters after a number leave the value int.Parse reads unchanged |
| Decimal.ParseRejectsLetter | Assets/Scripts/Input/InputHandler.cs:121-123 | a single character other than a digit, a sign, white space or NUL is a format error |
| Pieces.Opponent | Assets/Scripts/Core/TurnManager.cs:71-74 | the other player is never the same player |
| Pieces.OpponentInvolutive | Assets/Scripts/Core/TurnManager.cs:71-74 | switching twice gives the player back, and every player is p or the other one |
| Pieces.Piece.constructor | Assets/Scripts/GameLogic/GamePiece.cs:106-113 | a new piece has its owner, position (0,0,0) and move number 0 |
| Layout.EmptyGrid | Assets/Scripts/Core/BoardManager.cs:167-184 | every cell of the empty board is empty |
| Layout.Put | Assets/Scripts/Core/BoardManager.cs:85-96 | writing one cell changes that cell and no other |
| Layout.PlaceKeepsSupport | Assets/Scripts/Core/BoardManager.cs:85-96 | a placement the guard allows keeps every piece resting on a piece or on the floor |
| Layout.TakeKeepsSupport | Assets/Scripts/Core/BoardManager.cs:98-114 | a removal the guard allows keeps every piece resting on a piece or on the floor |
| Layout.Fill | Assets/Scripts/Core/BoardManager.cs:186-203 | filling an empty cell lowers the number of empty cells by one |
| Layout.NoEmptiesMeansFull | Assets/Scripts/Core/BoardManager.cs:186-203 | no empty cell is counted exactly when every cell is filled |
| Layout.FullRefuses | Assets/Scripts/Core/BoardManager.cs:85-96 | a board with no empty cell refuses every placement |
| Boards.NonNullMembers | Assets/Scripts/Core/BoardManager.cs:138-157 | GetAllPieces lists exactly the pieces on the board |
| Boards.OwnedByMembers | Assets/Scripts/Core/BoardManager.cs:116-136 | GetPlayerPieces lists exactly the player's pieces on the board |
| Boards.OwnedByIsFilteredNonNull | Assets/Scripts/Core/BoardManager.cs:116-157 | the player's list is the full list narrowed to that player, order kept |
| Boards.BoardManager.constructor | Assets/Scripts/Core/BoardManager.cs:15-59 | a new board is 3×3×3 and empty |
| Boards.BoardManager.PieceRecordsCell | Assets/Scripts/Core/GameManager.cs:92-95 | a piece on a consistent board sits in the cell it records and that cell is held by its owner |
| Boards.BoardManager.OwnedPieceRecordsCell | Assets/Scripts/Core/BoardManager.cs:116-136 | a listed piece of a player sits in the cell it records, held by that player |
| Boards.BoardManager.HasSupportBelow | Assets/Scripts/Core/BoardManager.cs:71-78 | true on the bottom layer; elsewhere true exactly when the cell below is filled |
| Boards.BoardManager.IsPositionEmpty | Assets/Scripts/Core/BoardManager.cs:80-83 | true exactly when the cell holds no piece |
| Boards.BoardManager.PlacePiece | Assets/Scripts/Core/BoardManager.cs:85-96 | succeeds exactly on a valid, empty, supported cell; then only that cell changes; otherwise nothing changes |
| Boards.BoardManager.RemovePiece | Assets/Scripts/Core/BoardManager.cs:98-114 | succeeds exactly on a valid, occupied cell with nothing on top; then only that cell empties; otherwise nothing changes |
| Boards.BoardManager.GetPlayerPieces | Assets/Scripts/Core/BoardManager.cs:116-136 | the player's pieces in scan order |
| Boards.BoardManager.GetAllPieces | Assets/Scripts/Core/BoardManager.cs:138-157 | every piece on the board in scan order |
| Boards.BoardManager.GetPieceAt | Assets/Scripts/Core/BoardManager.cs:159-165 | nothing off the board, otherwise the cell's content |
| Boards.BoardManager.ClearBoard | Assets/Scripts/Core/BoardManager.cs:167-184 | every cell is empty afterwards |
| Boards.BoardManager.IsBoardFull | Assets/Scripts/Core/BoardManager.cs:186-203 | true exactly when no cell is empty |
| Boards.BoardManager.StartSimulation | Assets/Scripts/Core/BoardManager.cs:207-220 | the snapshot holds the live board's cells |
| Boards.BoardManager.EndSimulation | Assets/Scripts/Core/BoardManager.cs:222-235 | the live board holds the snapshot's cells |
| Boards.BoardManager.SimulatePlacePiece | Assets/Scripts/Core/BoardManager.cs:237-251 | same guard as PlacePiece; on success a new piece of the player, recording the cell, fills it and nothing else changes |
| Boards.NewTempPiece | Assets/Scripts/Core/BoardManager.cs:243-246 | a new piece of the player that records the given cell |
| Boards.BoardManager.UndoSimulatedMove | Assets/Scripts/Core/BoardManager.cs:253-264 | the cell is emptied; nothing happens off the board |
| Boards.BoardManager.SimulateRemovePiece | Assets/Scripts/Core/BoardManager.cs:266-275 | the piece in an occupied cell is taken out and returned, covered or not; otherwise null and nothing changes |
| Boards.BoardManager.UndoSimulatedRemoval | Assets/Scripts/Core/BoardManager.cs:277-283 | the piece goes back into an empty cell; otherwise nothing changes |
| WinLines.Catalogue | Assets/Scripts/Core/WinConditionChecker.cs:21-44 | 24 lines, plus 9 with vertical wins, plus 4 with 3D diagonals |
| WinLines.VerticalFlagDropsColumns | Assets/Scripts/Core/WinConditionChecker.cs:76-91 | turning vertical wins off removes exactly the columns and nothing else |
| WinLines.YLinesAreColumns | Assets/Scripts/Core/WinConditionChecker.cs:76-91 | the lines the vertical flag adds are all columns |
| WinLines.DiagonalFlagDropsSpaceDiagonals | Assets/Scripts/Core/WinConditionChecker.cs:124-161 | turning 3D diagonals off removes exactly the four space diagonals and nothing else |
| WinLines.LinesWellFormed | Assets/Scripts/Core/WinConditionChecker.cs:46-161 | every line is three distinct cells of the board |
| WinLines.NoVerticalPlaneDiagonals | Assets/Scripts/Core/WinConditionChecker.cs:94-117 | layer diagonals stay in one layer, and no diagonal of a vertical plane is a winning line |
| WinLines.SegmentDirections | Assets/Scripts/Core/WinConditionChecker.cs:46-161 | each kind of line steps in its own direction from its first cell to its second |
| WinLines.CatalogueDistinct | Assets/Scripts/Core/WinConditionChecker.cs:21-44 | no line is generated twice, in particular no column |
| WinLines.WinsThroughIsWin | Assets/Scripts/Core/WinConditionChecker.cs:163-179 | a line through the last cell filled by the player is a filled line |
| WinLines.NewWinPassesThroughMove | Assets/Scripts/Core/WinConditionChecker.cs:163-179 | when the board had no filled line for p, p has one after a move exactly when one passes through that move |
| WinLines.WinConditionChecker.constructor | Assets/Scripts/Core/WinConditionChecker.cs:7-14 | references and flags set, no lines yet |
| WinLines.WinConditionChecker.Initialize | Assets/Scripts/Core/WinConditionChecker.cs:16-19 | the lines become the catalogue for the two flags |
| WinLines.WinConditionChecker.GenerateWinLines | Assets/Scripts/Core/WinConditionChecker.cs:21-44 | the lines become the catalogue for the two flags, whatever was there before |
| WinLines.WinConditionChecker.GenerateStraightLines | Assets/Scripts/Core/WinConditionChecker.cs:46-92 | appends the lines along x, then along z, then the columns when vertical wins are on |
| WinLines.WinConditionChecker.AddLinesAlongX | Assets/Scripts/Core/WinConditionChecker.cs:48-60 | appends the nine lines along x, layer by layer, row by row |
| WinLines.WinConditionChecker.AddLinesAlongZ | Assets/Scripts/Core/WinConditionChecker.cs:62-74 | appends the nine lines along z, layer by layer, column by column |
| WinLines.WinConditionChecker.AddLinesAlongY | Assets/Scripts/Core/WinConditionChecker.cs:76-91 | appends the nine columns, one per (x, z) |
| WinLines.WinConditionChecker.GenerateLayerDiagonals | Assets/Scripts/Core/WinConditionChecker.cs:94-117 | appends the two diagonals of each layer, bottom first |
| WinLines.WinConditionChecker.GenerateVerticalLines | Assets/Scripts/Core/WinConditionChecker.cs:119-122 | changes nothing |
| WinLines.WinConditionChecker.Generate3DDiagonals | Assets/Scripts/Core/WinConditionChecker.cs:124-161 | appends the four diagonals through the centre |
| WinLines.WinConditionChecker.ContainsPosition | Assets/Scripts/Core/WinConditionChecker.cs:181-191 | true exactly when the position is a cell of the line |
| WinLines.WinConditionChecker.CheckLine | Assets/Scripts/Core/WinConditionChecker.cs:193-204 | true exactly when every cell of the line holds a piece of the player |
| WinLines.WinConditionChecker.CheckForWin | Assets/Scripts/Core/WinConditionChecker.cs:163-179 | true exactly when some line through the last cell is filled by the player |
| WinLines.WinConditionChecker.CheckBoardState | Assets/Scripts/Core/WinConditionChecker.cs:206-223 | true exactly when some line is filled by either player |
| Turns.WithoutConcat | Assets/Scripts/Core/TurnManager.cs:94-117 | dropping a piece from a queue keeps the order of the rest |
| Turns.WithoutCounts | Assets/Scripts/Core/TurnManager.cs:94-117 | exactly the occurrences of the piece go; every other piece keeps its multiplicity |
| Turns.WithoutMembers | Assets/Scripts/Core/TurnManager.cs:94-117 | the piece is gone, every other piece stays, and a queue without it is unchanged |
| Turns.TurnManager.constructor | Assets/Scripts/Core/TurnManager.cs:18-23 | threshold 6, X to play, no moves, empty queues |
| Turns.TurnManager.Initialize | Assets/Scripts/Core/TurnManager.cs:28-32 | stores the threshold, then X to play, no moves, empty queues |
| Turns.TurnManager.Reset | Assets/Scripts/Core/TurnManager.cs:34-40 | X to play, no moves, empty queues; the threshold stays |
| Turns.TurnManager.CreatePiece | Assets/Scripts/Core/TurnManager.cs:43-63 | a new piece of the player at the back of that player's queue; nothing else changes |
| Turns.TurnManager.IncrementMoveCount | Assets/Scripts/Core/TurnManager.cs:66-69 | one more move; nothing else changes |
| Turns.TurnManager.SwitchPlayer | Assets/Scripts/Core/TurnManager.cs:71-74 | the other player to move; nothing else changes |
| Turns.TurnManager.AdvanceTurn | Assets/Scripts/Core/TurnManager.cs:76-80 | one more move and the other player to move; the queues stay |
| Turns.TurnManager.ShouldRemovePiece | Assets/Scripts/Core/TurnManager.cs:82-86 | true exactly when the mover's queue has reached the threshold |
| Turns.TurnManager.GetOldestPiece | Assets/Scripts/Core/TurnManager.cs:88-92 | the front of the player's queue, null exactly when it is empty |
| Turns.TurnManager.RemovePieceFromHistory | Assets/Scripts/Core/TurnManager.cs:94-117 | the owner's queue loses every reference to the piece, order kept; nothing else changes |
| Turns.TurnManager.CreatePieceForCurrentPlayer | Assets/Scripts/Core/TurnManager.cs:119-122 | a new piece of the mover at the back of the mover's queue |
| Validation.MoveValidator.ValidateMove | Assets/Scripts/GameLogic/MoveValidator.cs:8-27 | true exactly when it is the player's turn and the board would accept the placement |
| Validation.MoveValidator.ValidateRemoval | Assets/Scripts/GameLogic/MoveValidator.cs:29-47 | true exactly when the cell holds the player's piece with nothing on top, whoever is to move |
| Validation.MoveValidator.constructor | Assets/Scripts/GameLogic/MoveValidator.cs:5-6 | the board and turn references are stored |
| Game.EmptyGridSupported | Assets/Scripts/Core/GameManager.cs:133-139 | the empty board satisfies the stacking invariant |
| Game.GameManager.constructor | Assets/Scripts/Core/GameManager.cs:16-25 | the menu is showing; with freshly built, empty components the game invariant holds from the start |
| Game.GameManager.InitializeGame | Assets/Scripts/Core/GameManager.cs:43-56 | turns reset with the threshold, the catalogue rebuilt, play begins |
| Game.GameManager.ChangeState | Assets/Scripts/Core/GameManager.cs:58-84 | the new phase is set |
| Game.GameManager.HandlePiecePlacement | Assets/Scripts/Core/GameManager.cs:86-116 | only while playing; the piece lands exactly when the board accepts it; a line through it ends the game; otherwise the turn passes and removal is due at the threshold; the invariant is kept |
| Game.GameManager.SettlePiece | Assets/Scripts/Core/GameManager.cs:94-95 | the placed piece records its cell and the move count, and every piece on the board records its own cell |
| Game.GameManager.EndPlacement | Assets/Scripts/Core/GameManager.cs:97-109 | a line through the cell ends the game with the mover still to move; otherwise the turn passes and removal is due at the threshold |
| Game.GameManager.HandlePieceRemoval | Assets/Scripts/Core/GameManager.cs:118-131 | only while removing; the piece goes exactly when the board allows; then play resumes, or the game ends when some line is filled |
| Game.GameManager.RestartGame | Assets/Scripts/Core/GameManager.cs:133-139 | an empty board, fresh turns and catalogue, and play begins |
| Game.GameManager.CreatePiece | Assets/Scripts/Core/GameManager.cs:141-144 | a new piece of the player at the back of that player's queue |
| Game.GameManager.OnPieceRemoved | Assets/Scripts/Core/GameManager.cs:146-154 | play resumes |
| CascadeRules.MarkedIsFloating | Assets/Scripts/GameLogic/PieceRemovalHandler.cs:133-149 | a pass marks exactly the pieces above the bottom layer with an empty cell below |
| CascadeRules.NothingMarkedIffSupported | Assets/Scripts/GameLogic/PieceRemovalHandler.cs:125-158 | a pass marks nothing exactly when no piece floats, which is when the loop stops |
| CascadeRules.TryTake | Assets/Scripts/Core/BoardManager.cs:98-114 | one attempt empties the cell when the guard allows and otherwise changes nothing |
| CascadeRules.SupportedIsSafe | Assets/Scripts/GameLogic/PieceRemovalHandler.cs:121-159 | on a board where nothing floats the cascade terminates and changes nothing |
| CascadeRules.TakeLeavesNothingToCollapse | Assets/Scripts/GameLogic/PieceRemovalHandler.cs:104-113 | after a legal removal from a board where nothing floats, the cascade has nothing to take |
| CascadeRules.RemoveEachClears | Assets/Scripts/GameLogic/PieceRemovalHandler.cs:151-156 | removing distinct uncovered pieces one after another empties exactly those cells |
| CascadeRules.PassIsCollapse | Assets/Scripts/GameLogic/PieceRemovalHandler.cs:127-156 | on a safe board one pass takes away exactly the floating pieces |
| CascadeRules.CollapseSupported | Assets/Scripts/GameLogic/PieceRemovalHandler.cs:125-158 | after that pass nothing floats, so the next pass marks nothing |
| CascadeRules.TakeKeepsSafe | Assets/Scripts/GameLogic/PieceRemovalHandler.cs:104-113 | taking an uncovered piece from a safe board leaves it safe |
| CascadeRules.RemoveEachRefused | Assets/Scripts/GameLogic/PieceRemovalHandler.cs:151-156 | when every attempt is refused the board stays as it was |
| CascadeRules.StuckColumnRepeats | Assets/Scripts/GameLogic/PieceRemovalHandler.cs:125-158 | two pieces stacked over an empty bottom cell: a pass marks the lower one, cannot remove it, reports a removal and leaves the board as it was |
| Removal.UnsupportedIsMarked | Assets/Scripts/GameLogic/PieceRemovalHandler.cs:130-149 | marking the listed pieces of a consistent board gives the floating cells in scan order |
| Removal.PieceRemovalHandler.constructor | Assets/Scripts/GameLogic/PieceRemovalHandler.cs:7-31 | references and the cascade setting are stored |
| Removal.PieceRemovalHandler.CanRemovePiece | Assets/Scripts/GameLogic/PieceRemovalHandler.cs:59-72 | true on the top layer, otherwise exactly when the cell above is empty |
| Removal.PieceRemovalHandler.HasRemovablePieces | Assets/Scripts/GameLogic/PieceRemovalHandler.cs:161-174 | true exactly when the player holds some cell with nothing on top |
| Removal.PieceRemovalHandler.NoneExposed | Assets/Scripts/GameLogic/PieceRemovalHandler.cs:161-174 | when no listed piece of the player is uncovered, the player holds no uncovered cell |
| Removal.PieceRemovalHandler.CascadePass | Assets/Scripts/GameLogic/PieceRemovalHandler.cs:127-156 | one pass gives the board and the flag of Pass, and keeps the board consistent |
| Removal.PieceRemovalHandler.MarkUnsupported | Assets/Scripts/GameLogic/PieceRemovalHandler.cs:130-149 | the marked pieces' cells are the floating cells in scan order |
| Removal.PieceRemovalHandler.RemoveMarked | Assets/Scripts/GameLogic/PieceRemovalHandler.cs:151-156 | each marked cell is attempted in turn, and a removal is reported whenever the list was not empty |
| Removal.PieceRemovalHandler.HandleCascadeRemovals | Assets/Scripts/GameLogic/PieceRemovalHandler.cs:121-159 | on a safe board the loop ends with exactly the floating pieces gone |
| Removal.PieceRemovalHandler.RemovePiece | Assets/Scripts/GameLogic/PieceRemovalHandler.cs:88-119 | only the mover's piece with nothing on top is taken, then the cascade if enabled, then play resumes; otherwise nothing changes |
| Removal.PieceRemovalHandler.TakeAndCascade | Assets/Scripts/GameLogic/PieceRemovalHandler.cs:103-113 | the piece goes, then exactly the floating pieces when the cascade is enabled |
| Search.CountsPartition | Assets/Scripts/GameLogic/AIPlayer.cs:268-284 | the empty, AI and opponent counts of a line add up to its length |
| Search.CountOwned | Assets/Scripts/GameLogic/AIPlayer.cs:349-361 | a line counts all its cells for p exactly when p fills it |
| Search.LineScoreMeaning | Assets/Scripts/GameLogic/AIPlayer.cs:286-296 | a line scores between -10 and 10, positive exactly when only the AI has entered it with one or two pieces, negative symmetrically |
| Search.LineScoreSwap | Assets/Scripts/GameLogic/AIPlayer.cs:286-296 | seen from the other side a line scores the negation |
| Search.EvaluateBounded | Assets/Scripts/GameLogic/AIPlayer.cs:260-300 | the evaluation lies within ten points per line either way |
| Search.EvaluateSwap | Assets/Scripts/GameLogic/AIPlayer.cs:260-300 | the evaluation is zero-sum |
| Search.EvaluateEmpty | Assets/Scripts/GameLogic/AIPlayer.cs:260-300 | the empty board evaluates to 0 |
| Search.ValidMoves | Assets/Scripts/GameLogic/AIPlayer.cs:304-324 | every candidate is a legal placement |
| Search.ValidMovesExact | Assets/Scripts/GameLogic/AIPlayer.cs:304-324 | the candidates are exactly the legal placements, each once, in scan order |
| Search.MovesUntilFull | Assets/Scripts/GameLogic/AIPlayer.cs:304-324 | on a board where nothing floats a move remains exactly until the board is full |
| Search.AlphaBetaSound | Assets/Scripts/GameLogic/AIPlayer.cs:205-258 | for every window the pruned search is exact inside it and a correct bound outside it |
| Search.MinimaxInRange | Assets/Scripts/GameLogic/AIPlayer.cs:205-258 | with the default depth and catalogue every value lies in the 32-bit range |
| Search.FullWindowIsMinimax | Assets/Scripts/GameLogic/AIPlayer.cs:143 | started with the full 32-bit window the search returns the plain minimax value |
| Search.ScanBestIsFirstMax | Assets/Scripts/GameLogic/AIPlayer.cs:134-155 | the scan ends on the largest score and on the first entry holding it |
| Search.FirstMaximum | Assets/Scripts/GameLogic/AIPlayer.cs:134-155 | with no score below the floor the scan picks the first entry of the maximum |
| Search.FirstPreferred | Assets/Scripts/GameLogic/AIPlayer.cs:121-130 | the index of the first preferred candidate, or the length when there is none |
| Search.BestMoveIsLegal | Assets/Scripts/GameLogic/AIPlayer.cs:110-156 | while a move is left, the chosen move is a legal placement |
| Search.BestMoveOpening | Assets/Scripts/GameLogic/AIPlayer.cs:118-131 | in the opening, with a preferred cell free, the AI picks a preferred legal cell no later in scan order |
| Search.OpeningTakesFirstCorner | Assets/Scripts/GameLogic/AIPlayer.cs:118-131 | in the opening, while (0,0,0) is free, the AI plays there even if the centre is free |
| Search.MoveScoresAreValues | Assets/Scripts/GameLogic/AIPlayer.cs:134-155 | each move's search score is its minimax value, within the 32-bit range |
| Search.BestMoveMaximises | Assets/Scripts/GameLogic/AIPlayer.cs:134-155 | past the opening the chosen move has the highest minimax value, the first in scan order on a tie |
| Search.RemovalCandidates | Assets/Scripts/GameLogic/AIPlayer.cs:160-170 | every candidate is an AI piece with nothing on top |
| Search.RemovalCandidatesExact | Assets/Scripts/GameLogic/AIPlayer.cs:160-170 | the candidates are exactly the AI's uncovered pieces, each once, in scan order |
| Search.BestRemovalIsLegal | Assets/Scripts/GameLogic/AIPlayer.cs:158-203 | when the AI has a piece it may take, the chosen removal is one of them |
| Search.BestRemovalMaximises | Assets/Scripts/GameLogic/AIPlayer.cs:172-200 | the chosen removal is legal and has the highest minimax value, the first in scan order on a tie |
| AI.RemovableIsCandidates | Assets/Scripts/GameLogic/AIPlayer.cs:160-170 | filtering the AI's listed pieces gives the removal candidates in scan order |
| AI.Removable | Assets/Scripts/GameLogic/AIPlayer.cs:164-170 | keeps only cells on the board with nothing on top, and keeps every listed piece's cell that qualifies |
| AI.AIPlayer.constructor | Assets/Scripts/GameLogic/AIPlayer.cs:8-16 | the AI plays O and searches two plies deep |
| AI.AIPlayer.CheckForWin | Assets/Scripts/GameLogic/AIPlayer.cs:341-364 | true exactly when some line of the catalogue is filled by the player |
| AI.AIPlayer.EvaluateBoard | Assets/Scripts/GameLogic/AIPlayer.cs:260-300 | the sum of the line scores, whose meaning LineScoreMeaning states |
| AI.AIPlayer.GetValidMoves | Assets/Scripts/GameLogic/AIPlayer.cs:304-324 | exactly the legal placements in scan order |
| AI.AIPlayer.CanRemovePiece | Assets/Scripts/GameLogic/AIPlayer.cs:326-339 | true on the top layer, otherwise exactly when the cell above is empty |
| AI.AIPlayer.SimulatePlacePiece | Assets/Scripts/GameLogic/AIPlayer.cs:368-372 | a legal trial placement fills only that cell with a new piece of the player |
| AI.AIPlayer.UndoSimulatedMove | Assets/Scripts/GameLogic/AIPlayer.cs:374-377 | the cell is emptied; nothing else changes |
| AI.AIPlayer.SimulateRemovePiece | Assets/Scripts/GameLogic/AIPlayer.cs:379-382 | an occupied cell is emptied, covered or not; otherwise nothing changes |
| AI.AIPlayer.UndoSimulatedRemoval | Assets/Scripts/GameLogic/AIPlayer.cs:384-387 | the piece goes back into its empty cell; otherwise nothing changes |
| AI.AIPlayer.FindBestMove | Assets/Scripts/GameLogic/AIPlayer.cs:110-156 | returns the move BestMove prescribes and leaves the board exactly as it found it |
| AI.AIPlayer.WeighMoves | Assets/Scripts/GameLogic/AIPlayer.cs:133-155 | picks the first move of highest search score under the strict > scan and restores the board |
| AI.AIPlayer.FindBestRemoval | Assets/Scripts/GameLogic/AIPlayer.cs:158-203 | returns the removal BestRemoval prescribes and leaves the board exactly as it found it |
| AI.AIPlayer.WeighRemovals | Assets/Scripts/GameLogic/AIPlayer.cs:180-200 | picks the first candidate of highest search score and restores the board |
| AI.AIPlayer.CollectRemovals | Assets/Scripts/GameLogic/AIPlayer.cs:160-170 | exactly the removal candidates, in scan order |
| AI.AIPlayer.KeepRemovable | Assets/Scripts/GameLogic/AIPlayer.cs:164-170 | keeps exactly the listed pieces' cells that have nothing on top, in listing order |
| AI.AIPlayer.MakeAIMove | Assets/Scripts/GameLogic/AIPlayer.cs:80-93 | outside play nothing changes; during play a new piece of the mover is queued in any case; on a board not full the chosen move lands and the game then ends, passes the turn or calls for a removal as HandlePiecePlacement does; on a full board nothing else changes |
| AI.AIPlayer.RemoveAIPiece | Assets/Scripts/GameLogic/AIPlayer.cs:95-108 | outside the removal phase nothing changes; with a candidate the chosen AI piece leaves and play resumes or the game ends; with none, whatever uncovered piece sits at (0,0,0), the opponent's included, is taken; the queues never change |
| AI.AIPlayer.Minimax | Assets/Scripts/GameLogic/AIPlayer.cs:205-258 | returns the alpha-beta value of the live board and leaves the board exactly as it found it |
| AI.AIPlayer.MaximizingTurn | Assets/Scripts/GameLogic/AIPlayer.cs:218-237 | the AI's loop: the value of MaxLoop over the legal moves, board restored |
| AI.AIPlayer.MinimizingTurn | Assets/Scripts/GameLogic/AIPlayer.cs:238-257 | the opponent's loop: the value of MinLoop over the legal moves, board restored |
| AI.AIPlayer.TryMove | Assets/Scripts/GameLogic/AIPlayer.cs:225-227 | one trial placement, the search below it and the undo: the alpha-beta value of the board with that move, board restored (also the step at lines 140-146 and 245-247) |
| Input.RemoveAllKeeps | Assets/Scripts/Input/InputHandler.cs:117 | deleting occurrences only removes characters |
| Input.RemoveAllSkip | Assets/Scripts/Input/InputHandler.cs:117 | text before the first character of the pattern passes through untouched |
| Input.SplitPartsFree | Assets/Scripts/Input/InputHandler.cs:117 | no piece of a split holds the separator |
| Input.JoinSplit | Assets/Scripts/Input/InputHandler.cs:117 | joining the pieces of a split gives back the text |
| Input.SplitJoin | Assets/Scripts/Input/InputHandler.cs:117 | splitting a join of separator-free pieces gives back the pieces |
| Input.ParseCellName | Assets/Scripts/Input/InputHandler.cs:113-131 | a successful parse other than the fallback (0,0,0) has 32-bit coordinates |
| Input.ParseCellNameInverts | Assets/Scripts/Input/InputHandler.cs:113-131 | the name of the cell at (x,y,z) parses back to (x,y,z) for every 32-bit triple |
| Input.NoCommaIsOrigin | Assets/Scripts/Input/InputHandler.cs:128-130 | a name without a comma gives the fallback (0,0,0) |
| Input.NonNumericFails | Assets/Scripts/Input/InputHandler.cs:121-123 | a name whose first piece is not a number makes int.Parse fail |
| Input.CellTarget | Assets/Scripts/Input/InputHandler.cs:50-72 | the GridCell's position when present, otherwise the parsed name; nothing exactly when parsing fails |
| Input.CellTargetAgrees | Assets/Scripts/Core/BoardManager.cs:51 | for the cells the board creates, the name and the component lead to the same cell |
| Input.InputHandler.constructor | Assets/Scripts/Input/InputHandler.cs:5-11 | references stored |
| Input.InputHandler.HandlePlacementInput | Assets/Scripts/Input/InputHandler.cs:37-88 | a piece of the mover lands on the clicked cell exactly when it passes ValidateMove during play, with the queue, phase, mover and move count as HandlePiecePlacement leaves them; otherwise nothing changes, queues included |
| Input.InputHandler.HandleRemovalInput | Assets/Scripts/Input/InputHandler.cs:90-111 | the clicked piece leaves the board exactly when it is the mover's and uncovered during removal, and the phase becomes Playing or GameOver; otherwise nothing changes; the queues never change |
| Input.InputHandler.Update | Assets/Scripts/Input/InputHandler.cs:22-35 | a click goes to placement while playing and to removal while removing, with the outcomes those handlers state; in any other phase nothing changes |

## Left out

- Rendering and other Unity effects are not modelled: materials, highlighting
  (`HighlightRemovablePieces`, `ClearHighlights`), `Destroy`, transforms and the interface
  updates in `ChangeState`. The `Owner` setter's `UpdateVisuals` is part of this.
- The mouse, the camera and the raycast are inputs, not modelled steps. A frame's click
  becomes a `CellHit` (the hit cell object, with or without its `GridCell` component) or a
  `Piece?` (the hit piece). The `GridCell` component and `CameraController` are not part of
  this model.
- Unity wiring is not modelled: `Awake`, `FindObjectOfType` and the inspector. The
  references are constructor parameters. The AI's side and depth are fixed at their defaults,
  O and 2, because inspector overrides are not modelled.
- Coroutines and time are not modelled: `CheckAITurn`, `OnEnable`/`OnDisable` and the move
  delay. `AI.AIPlayer.MakeAIMove` and `AI.AIPlayer.RemoveAIPiece` are the bodies that run
  after the delay.
- AI.AIPlayer.GetWinLines: reads the checker's list directly. `AIPlayer.cs:391` reads a
  `WinLines` property that `WinConditionChecker.cs` does not define (its list is the private
  field `winLines`, line 14), so the source as shown does not compile there. The model assumes
  the property returns that field. GetWinLines carries no contract of its own.
- Decimal.ParseInt: uses the signs '-' and '+'. .NET's int.Parse and the `$"({x},{y},{z})"`
  interpolation take their sign strings from the current culture, which the model does not
  capture; only a culture with other sign strings would read or write negative numbers
  differently. The board's coordinates are never negative.
- The search's 32-bit scores are unbounded integers. `Search.MinimaxInRange` proves that
  with the default depth and any catalogue of the game's size every score stays in the 32-bit
  range, so no wrap-around can occur.
- Removal.PieceRemovalHandler.HandleCascadeRemovals: requires a board on which every floating
  piece has nothing on top of it. On any other board the source loops forever:
  `CascadeRules.StuckColumnRepeats` exhibits the board on which a pass changes nothing yet
  reports a removal. Such a board cannot arise in play. Placements keep every piece
  supported, so the cascade after a legal removal has nothing to take
  (`CascadeRules.TakeLeavesNothingToCollapse`).
- Removal.PieceRemovalHandler.RemovePiece: inherits the same requirement for its cascade.
- Several methods are split into a caller and helpers so that each proof stays small:
  `SettlePiece` and `EndPlacement` (the middle and the tail of `HandlePiecePlacement`),
  `WeighMoves` (the scoring loop of `FindBestMove`), `MaximizingTurn` and `MinimizingTurn`
  (the two loops of `Minimax`), `TryMove` (one simulate, search and undo step of those loops),
  `CollectRemovals`, `KeepRemovable` and `WeighRemovals` (the parts of `FindBestRemoval`),
  `AddLinesAlongX`, `AddLinesAlongZ` and `AddLinesAlongY` (the three blocks of
  `GenerateStraightLines`), `NewTempPiece` (the piece `SimulatePlacePiece` makes), and
  `CascadePass`, `MarkUnsupported`, `RemoveMarked` and `TakeAndCascade` (the parts of the
  removal handler). They do exactly what the cited lines do.
- Validation.MoveValidator.constructor: the validator's two references are serialized fields
  in the source, set by the Unity inspector; the model sets them in a constructor.
- `BoardManager.Initialize`/`CreateGrid` rebuild the cell objects, which are visual. The model
  keeps one cell array, created empty by the constructor.
- Pieces made by `CreatePiece` are Unity objects. Here they are new `Piece` objects, and the
  prefab and the parent transform play no part.
