/**
 * The AI's search as values: the static evaluation of a board, the moves the AI considers,
 * the alpha-beta search it runs, the plain minimax value that search stands for, and the
 * rules by which it picks a placement or a removal.
 */
module Search {
  import opened Wrappers
  import opened GridPositions
  import opened Pieces
  import opened Layout
  import opened WinLines

  /** int.MinValue and int.MaxValue: the 32-bit bounds the search starts its scores from. */
  const MinValue: int := -0x8000_0000
  const MaxValue: int := 0x7FFF_FFFF

  /** Mathf.Max on integers. */
  function Max(a: int, b: int): (r: int)
    ensures r >= a && r >= b && (r == a || r == b)
  {
    if a >= b then a else b
  }

  /** Mathf.Min on integers. */
  function Min(a: int, b: int): (r: int)
    ensures r <= a && r <= b && (r == a || r == b)
  {
    if a <= b then a else b
  }

  // ---------------------------------------------------------------------------------------
  // Static evaluation (EvaluateBoard)

  /** What GetPieceAt reports for a cell, as an owner: nothing for a position off the board. */
  function OwnerAt(g: Grid, pos: Position): Option<Player> {
    if IsValid(pos) then g[Index(pos)] else None
  }

  /** How many cells of the line report v. */
  function Count(g: Grid, line: Line, v: Option<Player>): (n: nat)
    ensures n <= |line|
  {
    if line == [] then 0
    else Count(g, line[..|line| - 1], v) + (if OwnerAt(g, line[|line| - 1]) == v then 1 else 0)
  }

  /** Every cell of a line is empty, the AI's or the opponent's: the three counts add up. */
  lemma {:induction false} CountsPartition(g: Grid, line: Line, ai: Player)
    ensures Count(g, line, None) + Count(g, line, Some(ai)) + Count(g, line, Some(Opponent(ai))) == |line|
  {
    if line != [] {
      CountsPartition(g, line[..|line| - 1], ai);
      var o := OwnerAt(g, line[|line| - 1]);
      if o.Some? {
        OpponentInvolutive(ai, o.value);
      }
    }
  }

  /** A line holding every cell for p is a line with |line| cells of p. */
  lemma {:induction false} CountOwned(g: Grid, line: Line, p: Player)
    ensures Count(g, line, Some(p)) == |line| <==> LineOwnedBy(g, line, p)
  {
    if line != [] {
      var init, last := line[..|line| - 1], line[|line| - 1];
      CountOwned(g, init, p);
      assert line == init + [last];
      assert LineOwnedBy(g, line, p) <==> LineOwnedBy(g, init, p) && Holds(g, last, p) by {
        if LineOwnedBy(g, init, p) && Holds(g, last, p) {
          forall pos | pos in line ensures Holds(g, pos, p) {
            if pos != last {
              assert pos in init;
            }
          }
        }
        if LineOwnedBy(g, line, p) {
          assert last in line;
          forall pos | pos in init ensures Holds(g, pos, p) {
            assert pos in line;
          }
        }
      }
    }
  }

  /** The weight of k pieces of one side in a line the other side has not entered. */
  function Threat(k: nat): int {
    if k == 2 then 10 else if k == 1 then 1 else 0
  }

  /**
   * A line's share of EvaluateBoard: two or one AI pieces with no opponent piece count 10 or 1,
   * two or one opponent pieces with no AI piece count -10 or -1, and every other line 0.
   */
  function LineScore(g: Grid, line: Line, ai: Player): int {
    var mine := Count(g, line, Some(ai));
    var theirs := Count(g, line, Some(Opponent(ai)));
    (if theirs == 0 then Threat(mine) else 0) - (if mine == 0 then Threat(theirs) else 0)
  }

  /** The sign of a line's score says which side alone has entered it, and with how many pieces. */
  lemma LineScoreMeaning(g: Grid, line: Line, ai: Player)
    ensures -10 <= LineScore(g, line, ai) <= 10
    ensures LineScore(g, line, ai) > 0 <==>
      Count(g, line, Some(Opponent(ai))) == 0 && 1 <= Count(g, line, Some(ai)) <= 2
    ensures LineScore(g, line, ai) < 0 <==>
      Count(g, line, Some(ai)) == 0 && 1 <= Count(g, line, Some(Opponent(ai))) <= 2
  {
  }

  /** Seen from the other side, a line scores the negation. */
  lemma LineScoreSwap(g: Grid, line: Line, ai: Player)
    ensures LineScore(g, line, Opponent(ai)) == -LineScore(g, line, ai)
  {
    OpponentInvolutive(ai, ai);
  }

  /** EvaluateBoard: the sum of the line scores, in catalogue order. */
  function Evaluate(lines: seq<Line>, g: Grid, ai: Player): int {
    if lines == [] then 0
    else Evaluate(lines[..|lines| - 1], g, ai) + LineScore(g, lines[|lines| - 1], ai)
  }

  /** The evaluation never exceeds ten points per line either way. */
  lemma {:induction false} EvaluateBounded(lines: seq<Line>, g: Grid, ai: Player)
    ensures -10 * |lines| <= Evaluate(lines, g, ai) <= 10 * |lines|
  {
    if lines != [] {
      EvaluateBounded(lines[..|lines| - 1], g, ai);
      LineScoreMeaning(g, lines[|lines| - 1], ai);
    }
  }

  /** The evaluation is zero-sum: seen from the other side it is the negation. */
  lemma {:induction false} EvaluateSwap(lines: seq<Line>, g: Grid, ai: Player)
    ensures Evaluate(lines, g, Opponent(ai)) == -Evaluate(lines, g, ai)
  {
    if lines != [] {
      EvaluateSwap(lines[..|lines| - 1], g, ai);
      LineScoreSwap(g, lines[|lines| - 1], ai);
    }
  }

  /** No piece of p in any of the first cells of the line. */
  lemma {:induction false} CountOnEmpty(line: Line, p: Player)
    ensures Count(EmptyGrid(), line, Some(p)) == 0
  {
    if line != [] {
      CountOnEmpty(line[..|line| - 1], p);
    }
  }

  /** The empty board is even. */
  lemma {:induction false} EvaluateEmpty(lines: seq<Line>, ai: Player)
    ensures Evaluate(lines, EmptyGrid(), ai) == 0
  {
    if lines != [] {
      EvaluateEmpty(lines[..|lines| - 1], ai);
      CountOnEmpty(lines[|lines| - 1], ai);
      CountOnEmpty(lines[|lines| - 1], Opponent(ai));
    }
  }

  // ---------------------------------------------------------------------------------------
  // Candidate moves (GetValidMoves)

  /** The placeable cells among the first n in scan order, in scan order. */
  function MovesUpTo(g: Grid, n: int): seq<Position>
    requires 0 <= n <= CellCount
  {
    if n == 0 then []
    else MovesUpTo(g, n - 1) + (if CanPlace(g, PosAt(n - 1)) then [PosAt(n - 1)] else [])
  }

  /** Every cell listed is a legal placement among the first n, and the list is in scan order. */
  lemma {:induction false} MovesUpToSound(g: Grid, n: int)
    requires 0 <= n <= CellCount
    ensures forall q | q in MovesUpTo(g, n) :: CanPlace(g, q) && Index(q) < n
    ensures forall i, j | 0 <= i < j < |MovesUpTo(g, n)| :: Index(MovesUpTo(g, n)[i]) < Index(MovesUpTo(g, n)[j])
  {
    if n > 0 {
      MovesUpToSound(g, n - 1);
      var prev, p, s := MovesUpTo(g, n - 1), PosAt(n - 1), MovesUpTo(g, n);
      assert s == prev + (if CanPlace(g, p) then [p] else []);
      forall q | q in s ensures CanPlace(g, q) && Index(q) < n {
        if q !in prev {
          assert q == p;
        }
      }
      forall i, j | 0 <= i < j < |s| ensures Index(s[i]) < Index(s[j]) {
        assert s[i] == prev[i] && prev[i] in prev;
        if j < |prev| {
          assert s[j] == prev[j];
        } else {
          assert s[j] == p;
        }
      }
    }
  }

  /** GetValidMoves: every placeable cell, in scan order (layer by layer, then row, then column). */
  function ValidMoves(g: Grid): (ms: seq<Position>)
    ensures forall q | q in ms :: CanPlace(g, q)
  {
    MovesUpToSound(g, CellCount);
    MovesUpTo(g, CellCount)
  }

  lemma {:induction false} MovesUpToComplete(g: Grid, n: int)
    requires 0 <= n <= CellCount
    ensures forall q | CanPlace(g, q) && Index(q) < n :: q in MovesUpTo(g, n)
  {
    if n > 0 {
      MovesUpToComplete(g, n - 1);
      forall q | CanPlace(g, q) && Index(q) < n ensures q in MovesUpTo(g, n) {
        if Index(q) == n - 1 {
          IndexOfValid(q);
        }
      }
    }
  }

  /** Scanning one more cell, (x, y, z), adds it exactly when it is a legal placement. */
  lemma MovesStep(g: Grid, x: int, y: int, z: int)
    requires 0 <= x < 3 && 0 <= y < 3 && 0 <= z < 3
    ensures var n := 9 * y + 3 * z + x;
      MovesUpTo(g, n + 1) == MovesUpTo(g, n) + (if CanPlace(g, Position(x, y, z)) then [Position(x, y, z)] else [])
  {
    IndexOfValid(Position(x, y, z));
  }

  /** The candidate moves are exactly the legal placements, each once, in scan order. */
  lemma ValidMovesExact(g: Grid)
    ensures forall q :: q in ValidMoves(g) <==> CanPlace(g, q)
    ensures forall i, j | 0 <= i < j < |ValidMoves(g)| :: Index(ValidMoves(g)[i]) < Index(ValidMoves(g)[j])
  {
    MovesUpToSound(g, CellCount);
    MovesUpToComplete(g, CellCount);
    forall q | CanPlace(g, q) ensures Index(q) < CellCount {
      IndexOfValid(q);
    }
  }

  /** On a board where every piece rests on another, some move remains until the board is full. */
  lemma MovesUntilFull(g: Grid)
    requires Supported(g)
    ensures ValidMoves(g) == [] <==> Empties(g) == 0
  {
    ValidMovesExact(g);
    NoEmptiesMeansFull(g);
    if Empties(g) != 0 {
      var i :| 0 <= i < CellCount && g[i].None?;
      var p := PosAt(i);
      var bottom, middle := p.(y := 0), p.(y := 1);
      assert Below(middle) == bottom;
      if !Occupied(g, bottom) {
        assert CanPlace(g, bottom);
      } else if !Occupied(g, middle) {
        assert CanPlace(g, middle);
      } else {
        assert p.y == 2 && Below(p) == middle;
        assert CanPlace(g, p);
      }
    } else {
      if ValidMoves(g) != [] {
        var q := ValidMoves(g)[0];
        assert q in ValidMoves(g);
        IndexOfValid(q);
      }
    }
  }

  // ---------------------------------------------------------------------------------------
  // The searches (Minimax)

  /**
   * The alpha-beta search Minimax runs: a filled line for the AI scores 100 + depth, one for the
   * opponent -100 - depth, depth 0 scores the evaluation; otherwise the AI (maximising) or the
   * opponent (minimising) tries each candidate move in turn, narrowing the window and stopping
   * once it closes. A side with no move left scores int.MinValue or int.MaxValue.
   */
  function AlphaBeta(lines: seq<Line>, g: Grid, ai: Player, depth: int, isMax: bool, alpha: int, beta: int): int
    decreases Empties(g), 1
  {
    if HasLine(lines, g, ai) then 100 + depth
    else if HasLine(lines, g, Opponent(ai)) then -100 - depth
    else if depth == 0 then Evaluate(lines, g, ai)
    else if isMax then MaxLoop(lines, g, ai, depth, ValidMoves(g), MinValue, alpha, beta)
    else MinLoop(lines, g, ai, depth, ValidMoves(g), MaxValue, alpha, beta)
  }

  /** The maximising loop from the move at the head of moves on, with its best and alpha so far. */
  function MaxLoop(lines: seq<Line>, g: Grid, ai: Player, depth: int, moves: seq<Position>, best: int, alpha: int, beta: int): int
    requires forall m | m in moves :: CanPlace(g, m)
    decreases Empties(g), 0, |moves|
  {
    if moves == [] then best
    else
      assert moves[0] in moves && CanPlace(g, moves[0]);
      Fill(g, moves[0], ai);
      var score := AlphaBeta(lines, Put(g, moves[0], Some(ai)), ai, depth - 1, false, alpha, beta);
      var best', alpha' := Max(best, score), Max(alpha, score);
      if beta <= alpha' then best' else MaxLoop(lines, g, ai, depth, moves[1..], best', alpha', beta)
  }

  /** The minimising loop from the move at the head of moves on, with its worst and beta so far. */
  function MinLoop(lines: seq<Line>, g: Grid, ai: Player, depth: int, moves: seq<Position>, worst: int, alpha: int, beta: int): int
    requires forall m | m in moves :: CanPlace(g, m)
    decreases Empties(g), 0, |moves|
  {
    if moves == [] then worst
    else
      assert moves[0] in moves && CanPlace(g, moves[0]);
      Fill(g, moves[0], Opponent(ai));
      var score := AlphaBeta(lines, Put(g, moves[0], Some(Opponent(ai))), ai, depth - 1, true, alpha, beta);
      var worst', beta' := Min(worst, score), Min(beta, score);
      if beta' <= alpha then worst' else MinLoop(lines, g, ai, depth, moves[1..], worst', alpha, beta')
  }

  /** The plain minimax value the search stands for: the same scores, every move looked at. */
  function MinimaxValue(lines: seq<Line>, g: Grid, ai: Player, depth: int, isMax: bool): int
    decreases Empties(g), 1
  {
    if HasLine(lines, g, ai) then 100 + depth
    else if HasLine(lines, g, Opponent(ai)) then -100 - depth
    else if depth == 0 then Evaluate(lines, g, ai)
    else if isMax then MaxOver(lines, g, ai, depth, ValidMoves(g), MinValue)
    else MinOver(lines, g, ai, depth, ValidMoves(g), MaxValue)
  }

  /** The larger of best and the values of the AI's moves. */
  function MaxOver(lines: seq<Line>, g: Grid, ai: Player, depth: int, moves: seq<Position>, best: int): int
    requires forall m | m in moves :: CanPlace(g, m)
    decreases Empties(g), 0, |moves|
  {
    if moves == [] then best
    else
      assert moves[0] in moves && CanPlace(g, moves[0]);
      Fill(g, moves[0], ai);
      var score := MinimaxValue(lines, Put(g, moves[0], Some(ai)), ai, depth - 1, false);
      MaxOver(lines, g, ai, depth, moves[1..], Max(best, score))
  }

  /** The smaller of worst and the values of the opponent's moves. */
  function MinOver(lines: seq<Line>, g: Grid, ai: Player, depth: int, moves: seq<Position>, worst: int): int
    requires forall m | m in moves :: CanPlace(g, m)
    decreases Empties(g), 0, |moves|
  {
    if moves == [] then worst
    else
      assert moves[0] in moves && CanPlace(g, moves[0]);
      Fill(g, moves[0], Opponent(ai));
      var score := MinimaxValue(lines, Put(g, moves[0], Some(Opponent(ai))), ai, depth - 1, true);
      MinOver(lines, g, ai, depth, moves[1..], Min(worst, score))
  }

  lemma {:induction false} MaxOverAtLeast(lines: seq<Line>, g: Grid, ai: Player, depth: int, moves: seq<Position>, best: int)
    requires forall m | m in moves :: CanPlace(g, m)
    ensures MaxOver(lines, g, ai, depth, moves, best) >= best
    decreases |moves|
  {
    if moves != [] {
      assert moves[0] in moves && CanPlace(g, moves[0]);
      var score := MinimaxValue(lines, Put(g, moves[0], Some(ai)), ai, depth - 1, false);
      MaxOverAtLeast(lines, g, ai, depth, moves[1..], Max(best, score));
    }
  }

  lemma {:induction false} MinOverAtMost(lines: seq<Line>, g: Grid, ai: Player, depth: int, moves: seq<Position>, worst: int)
    requires forall m | m in moves :: CanPlace(g, m)
    ensures MinOver(lines, g, ai, depth, moves, worst) <= worst
    decreases |moves|
  {
    if moves != [] {
      assert moves[0] in moves && CanPlace(g, moves[0]);
      var score := MinimaxValue(lines, Put(g, moves[0], Some(Opponent(ai))), ai, depth - 1, true);
      MinOverAtMost(lines, g, ai, depth, moves[1..], Min(worst, score));
    }
  }

  /**
   * How a fail-soft search result r stands to the true value v for the window (alpha, beta):
   * inside the window it is v, at or below alpha it lies between v and alpha, at or above beta
   * it lies between beta and v.
   */
  predicate FailSoft(v: int, r: int, alpha: int, beta: int) {
    && (v <= alpha ==> v <= r <= alpha)
    && (beta <= v ==> beta <= r <= v)
    && (alpha < v < beta ==> r == v)
  }

  /** Pruning never changes what the search reports about the window it was given. */
  lemma {:induction false} AlphaBetaSound(lines: seq<Line>, g: Grid, ai: Player, depth: int, isMax: bool, alpha: int, beta: int)
    requires MinValue <= alpha < beta <= MaxValue
    ensures FailSoft(MinimaxValue(lines, g, ai, depth, isMax), AlphaBeta(lines, g, ai, depth, isMax, alpha, beta), alpha, beta)
    decreases Empties(g), 1
  {
    if HasLine(lines, g, ai) || HasLine(lines, g, Opponent(ai)) || depth == 0 {
    } else if isMax {
      MaxLoopSound(lines, g, ai, depth, ValidMoves(g), MinValue, alpha, beta, MinValue, alpha);
    } else {
      MinLoopSound(lines, g, ai, depth, ValidMoves(g), MaxValue, alpha, beta, MaxValue, beta);
    }
  }

  /**
   * The maximising loop, entered with best m and alpha a, against the plain maximum pm over the
   * same moves already looked at, for the window (alpha0, beta) the node was given.
   */
  lemma {:induction false} MaxLoopSound(lines: seq<Line>, g: Grid, ai: Player, depth: int, moves: seq<Position>,
                                        m: int, a: int, beta: int, pm: int, alpha0: int)
    requires forall mv | mv in moves :: CanPlace(g, mv)
    requires MinValue <= alpha0 && a == Max(alpha0, m) && a < beta <= MaxValue
    requires pm <= alpha0 ==> pm <= m <= alpha0
    requires alpha0 < pm ==> m == pm
    ensures FailSoft(MaxOver(lines, g, ai, depth, moves, pm), MaxLoop(lines, g, ai, depth, moves, m, a, beta), alpha0, beta)
    decreases Empties(g), 0, |moves|
  {
    if moves != [] {
      assert moves[0] in moves && CanPlace(g, moves[0]);
      var child := Put(g, moves[0], Some(ai));
      Fill(g, moves[0], ai);
      AlphaBetaSound(lines, child, ai, depth - 1, false, a, beta);
      var v := MinimaxValue(lines, child, ai, depth - 1, false);
      var r := AlphaBeta(lines, child, ai, depth - 1, false, a, beta);
      if beta <= Max(a, r) {
        MaxOverAtLeast(lines, g, ai, depth, moves[1..], Max(pm, v));
      } else {
        MaxLoopSound(lines, g, ai, depth, moves[1..], Max(m, r), Max(a, r), beta, Max(pm, v), alpha0);
      }
    }
  }

  /** The minimising loop, entered with worst w and beta b, against the plain minimum pw. */
  lemma {:induction false} MinLoopSound(lines: seq<Line>, g: Grid, ai: Player, depth: int, moves: seq<Position>,
                                        w: int, alpha: int, b: int, pw: int, beta0: int)
    requires forall mv | mv in moves :: CanPlace(g, mv)
    requires beta0 <= MaxValue && b == Min(beta0, w) && MinValue <= alpha < b
    requires beta0 <= pw ==> beta0 <= w <= pw
    requires pw < beta0 ==> w == pw
    ensures FailSoft(MinOver(lines, g, ai, depth, moves, pw), MinLoop(lines, g, ai, depth, moves, w, alpha, b), alpha, beta0)
    decreases Empties(g), 0, |moves|
  {
    if moves != [] {
      assert moves[0] in moves && CanPlace(g, moves[0]);
      var child := Put(g, moves[0], Some(Opponent(ai)));
      Fill(g, moves[0], Opponent(ai));
      AlphaBetaSound(lines, child, ai, depth - 1, true, alpha, b);
      var v := MinimaxValue(lines, child, ai, depth - 1, true);
      var r := AlphaBeta(lines, child, ai, depth - 1, true, alpha, b);
      if Min(b, r) <= alpha {
        MinOverAtMost(lines, g, ai, depth, moves[1..], Min(pw, v));
      } else {
        MinLoopSound(lines, g, ai, depth, moves[1..], Min(w, r), alpha, Min(b, r), Min(pw, v), beta0);
      }
    }
  }

  /**
   * With depth and catalogue small enough, every value lies within the 32-bit range the search
   * starts from (a side without a move scores one of its ends).
   */
  lemma {:induction false} MinimaxInRange(lines: seq<Line>, g: Grid, ai: Player, depth: int, isMax: bool)
    requires 0 <= depth <= MaxValue - 100 && 10 * |lines| <= MaxValue
    ensures MinValue <= MinimaxValue(lines, g, ai, depth, isMax) <= MaxValue
    decreases Empties(g), 1
  {
    if HasLine(lines, g, ai) || HasLine(lines, g, Opponent(ai)) {
    } else if depth == 0 {
      EvaluateBounded(lines, g, ai);
    } else if isMax {
      MaxOverInRange(lines, g, ai, depth, ValidMoves(g), MinValue);
    } else {
      MinOverInRange(lines, g, ai, depth, ValidMoves(g), MaxValue);
    }
  }

  lemma {:induction false} MaxOverInRange(lines: seq<Line>, g: Grid, ai: Player, depth: int, moves: seq<Position>, best: int)
    requires 0 < depth <= MaxValue - 100 && 10 * |lines| <= MaxValue
    requires forall m | m in moves :: CanPlace(g, m)
    requires MinValue <= best <= MaxValue
    ensures MinValue <= MaxOver(lines, g, ai, depth, moves, best) <= MaxValue
    decreases Empties(g), 0, |moves|
  {
    if moves != [] {
      assert moves[0] in moves && CanPlace(g, moves[0]);
      var child := Put(g, moves[0], Some(ai));
      Fill(g, moves[0], ai);
      MinimaxInRange(lines, child, ai, depth - 1, false);
      MaxOverInRange(lines, g, ai, depth, moves[1..], Max(best, MinimaxValue(lines, child, ai, depth - 1, false)));
    }
  }

  lemma {:induction false} MinOverInRange(lines: seq<Line>, g: Grid, ai: Player, depth: int, moves: seq<Position>, worst: int)
    requires 0 < depth <= MaxValue - 100 && 10 * |lines| <= MaxValue
    requires forall m | m in moves :: CanPlace(g, m)
    requires MinValue <= worst <= MaxValue
    ensures MinValue <= MinOver(lines, g, ai, depth, moves, worst) <= MaxValue
    decreases Empties(g), 0, |moves|
  {
    if moves != [] {
      assert moves[0] in moves && CanPlace(g, moves[0]);
      var child := Put(g, moves[0], Some(Opponent(ai)));
      Fill(g, moves[0], Opponent(ai));
      MinimaxInRange(lines, child, ai, depth - 1, true);
      MinOverInRange(lines, g, ai, depth, moves[1..], Min(worst, MinimaxValue(lines, child, ai, depth - 1, true)));
    }
  }

  /** Started with the full 32-bit window, as FindBestMove starts it, the search is exact. */
  lemma FullWindowIsMinimax(lines: seq<Line>, g: Grid, ai: Player, depth: int, isMax: bool)
    requires 0 <= depth <= MaxValue - 100 && 10 * |lines| <= MaxValue
    ensures AlphaBeta(lines, g, ai, depth, isMax, MinValue, MaxValue) == MinimaxValue(lines, g, ai, depth, isMax)
  {
    AlphaBetaSound(lines, g, ai, depth, isMax, MinValue, MaxValue);
    MinimaxInRange(lines, g, ai, depth, isMax);
  }

  // ---------------------------------------------------------------------------------------
  // Picking a move (FindBestMove) and a removal (FindBestRemoval)

  /**
   * The strict-improvement scan both pickers make: starting from score floor at index 0, an
   * entry replaces the best so far only when it is strictly larger. Gives (index, score).
   */
  function ScanBest(scores: seq<int>, floor: int): (r: (int, int))
    ensures 0 <= r.0 && (|scores| > 0 ==> r.0 < |scores|)
  {
    if scores == [] then (0, floor)
    else
      var prev := ScanBest(scores[..|scores| - 1], floor);
      if scores[|scores| - 1] > prev.1 then (|scores| - 1, scores[|scores| - 1]) else prev
  }

  /** One more entry of the scan. */
  lemma ScanBestStep(scores: seq<int>, k: int, floor: int)
    requires 0 <= k < |scores|
    ensures ScanBest(scores[..k + 1], floor)
      == if scores[k] > ScanBest(scores[..k], floor).1 then (k, scores[k]) else ScanBest(scores[..k], floor)
  {
    assert scores[..k + 1][..k] == scores[..k];
  }

  /**
   * The scan ends on the largest score (or the floor) and, when it moved at all, on the first
   * entry holding that score; when no entry beats the floor it stays on entry 0.
   */
  lemma {:induction false} ScanBestIsFirstMax(scores: seq<int>, floor: int)
    ensures var r := ScanBest(scores, floor);
      && r.1 >= floor
      && (forall j | 0 <= j < |scores| :: scores[j] <= r.1)
      && (r.1 > floor ==> scores[r.0] == r.1 && forall j | 0 <= j < r.0 :: scores[j] < r.1)
      && (r.1 == floor ==> r.0 == 0)
  {
    if scores != [] {
      var init := scores[..|scores| - 1];
      ScanBestIsFirstMax(init, floor);
      assert forall j | 0 <= j < |init| :: init[j] == scores[j];
    }
  }

  /** When no score falls below the floor, the scan picks the first entry of the maximum. */
  lemma FirstMaximum(scores: seq<int>, floor: int)
    requires |scores| > 0 && forall j | 0 <= j < |scores| :: floor <= scores[j]
    ensures var i := ScanBest(scores, floor).0;
      && (forall j | 0 <= j < |scores| :: scores[j] <= scores[i])
      && (forall j | 0 <= j < i :: scores[j] < scores[i])
  {
    ScanBestIsFirstMax(scores, floor);
    assert scores[0] >= floor;
  }

  /** The opening preference: the centre of the bottom layer or one of its four corners. */
  predicate Preferred(m: Position) {
    || (m.x == 1 && m.y == 0 && m.z == 1)
    || (m.y == 0 && (m.x == 0 || m.x == 2) && (m.z == 0 || m.z == 2))
  }

  /** The index of the first preferred move, or |moves| when there is none. */
  function FirstPreferred(moves: seq<Position>): (i: int)
    ensures 0 <= i <= |moves|
    ensures i < |moves| ==> Preferred(moves[i])
    ensures forall j | 0 <= j < i :: !Preferred(moves[j])
  {
    if moves == [] then 0
    else if Preferred(moves[0]) then 0
    else 1 + FirstPreferred(moves[1..])
  }

  /** The search's score for the AI playing m: the opponent answers, at the full search depth. */
  function MoveScores(lines: seq<Line>, g: Grid, ai: Player, depth: int, moves: seq<Position>): (s: seq<int>)
    requires forall m | m in moves :: IsValid(m)
    ensures |s| == |moves|
  {
    seq(|moves|, i requires 0 <= i < |moves| => AlphaBeta(lines, Put(g, moves[i], Some(ai)), ai, depth, false, MinValue, MaxValue))
  }

  /**
   * FindBestMove: (0,0,0) when no move is left; within the first two moves of the game the first
   * candidate on a preferred cell; otherwise the first candidate with the highest search score.
   */
  function BestMove(lines: seq<Line>, g: Grid, ai: Player, depth: int, moveCount: int): Position {
    var moves := ValidMoves(g);
    if moves == [] then Position(0, 0, 0)
    else if moveCount < 2 && FirstPreferred(moves) < |moves| then moves[FirstPreferred(moves)]
    else moves[ScanBest(MoveScores(lines, g, ai, depth, moves), MinValue).0]
  }

  /** While a move is left, the chosen move is a legal placement. */
  lemma BestMoveIsLegal(lines: seq<Line>, g: Grid, ai: Player, depth: int, moveCount: int)
    requires ValidMoves(g) != []
    ensures CanPlace(g, BestMove(lines, g, ai, depth, moveCount))
  {
    var moves := ValidMoves(g);
    var b := BestMove(lines, g, ai, depth, moveCount);
    if !(moveCount < 2 && FirstPreferred(moves) < |moves|) {
      assert b == moves[ScanBest(MoveScores(lines, g, ai, depth, moves), MinValue).0];
    }
    assert b in moves;
  }

  /**
   * In the opening, when a preferred cell is free to play, the chosen move is the preferred
   * legal placement earliest in scan order.
   */
  lemma BestMoveOpening(lines: seq<Line>, g: Grid, ai: Player, depth: int, moveCount: int, q: Position)
    requires moveCount < 2 && CanPlace(g, q) && Preferred(q)
    ensures var b := BestMove(lines, g, ai, depth, moveCount);
      CanPlace(g, b) && Preferred(b) && Index(b) <= Index(q)
  {
    var moves := ValidMoves(g);
    ValidMovesExact(g);
    assert q in moves;
    var k :| 0 <= k < |moves| && moves[k] == q;
    var i := FirstPreferred(moves);
    assert i <= k;
    assert BestMove(lines, g, ai, depth, moveCount) == moves[i];
    assert moves[i] in moves;
    if i < k {
      assert Index(moves[i]) < Index(moves[k]);
    }
  }

  /**
   * While the corner (0,0,0) is free, the opening takes it, even when the centre (1,0,1) is free
   * too: the first preferred cell in scan order wins, not the centre.
   */
  lemma OpeningTakesFirstCorner(lines: seq<Line>, g: Grid, ai: Player, depth: int, moveCount: int)
    requires moveCount < 2 && g[0] == None
    ensures BestMove(lines, g, ai, depth, moveCount) == Position(0, 0, 0)
  {
    var b := BestMove(lines, g, ai, depth, moveCount);
    assert IsValid(b) && Index(b) <= 0 by {
      BestMoveOpening(lines, g, ai, depth, moveCount, Position(0, 0, 0));
    }
  }

  /** The value, by plain minimax, of the AI playing m. */
  function PlayValue(lines: seq<Line>, g: Grid, ai: Player, depth: int, m: Position): int
    requires IsValid(m)
  {
    MinimaxValue(lines, Put(g, m, Some(ai)), ai, depth, false)
  }

  lemma MoveScoresAreValues(lines: seq<Line>, g: Grid, ai: Player, depth: int, moves: seq<Position>)
    requires 0 <= depth <= MaxValue - 100 && 10 * |lines| <= MaxValue
    requires forall m | m in moves :: IsValid(m)
    ensures forall i | 0 <= i < |moves| :: MoveScores(lines, g, ai, depth, moves)[i] == PlayValue(lines, g, ai, depth, moves[i])
    ensures forall i | 0 <= i < |moves| :: MinValue <= PlayValue(lines, g, ai, depth, moves[i])
  {
    forall i | 0 <= i < |moves|
      ensures MoveScores(lines, g, ai, depth, moves)[i] == PlayValue(lines, g, ai, depth, moves[i])
      ensures MinValue <= PlayValue(lines, g, ai, depth, moves[i])
    {
      FullWindowIsMinimax(lines, Put(g, moves[i], Some(ai)), ai, depth, false);
      MinimaxInRange(lines, Put(g, moves[i], Some(ai)), ai, depth, false);
    }
  }

  /**
   * Past the opening rule, the chosen move has the highest minimax value of all legal
   * placements, and among those of equal value it comes first in scan order.
   */
  lemma BestMoveMaximises(lines: seq<Line>, g: Grid, ai: Player, depth: int, moveCount: int)
    requires 0 <= depth <= MaxValue - 100 && 10 * |lines| <= MaxValue
    requires ValidMoves(g) != [] && !(moveCount < 2 && FirstPreferred(ValidMoves(g)) < |ValidMoves(g)|)
    ensures var b := BestMove(lines, g, ai, depth, moveCount);
      && CanPlace(g, b)
      && (forall m | CanPlace(g, m) :: PlayValue(lines, g, ai, depth, m) <= PlayValue(lines, g, ai, depth, b))
      && (forall m | CanPlace(g, m) && PlayValue(lines, g, ai, depth, m) == PlayValue(lines, g, ai, depth, b) :: Index(b) <= Index(m))
  {
    var moves := ValidMoves(g);
    var scores := MoveScores(lines, g, ai, depth, moves);
    MoveScoresAreValues(lines, g, ai, depth, moves);
    FirstMaximum(scores, MinValue);
    ValidMovesExact(g);
    var i := ScanBest(scores, MinValue).0;
    assert BestMove(lines, g, ai, depth, moveCount) == moves[i];
    forall m | CanPlace(g, m) ensures PlayValue(lines, g, ai, depth, m) <= PlayValue(lines, g, ai, depth, moves[i]) {
      var k :| 0 <= k < |moves| && moves[k] == m;
    }
    forall m | CanPlace(g, m) && PlayValue(lines, g, ai, depth, m) == PlayValue(lines, g, ai, depth, moves[i])
      ensures Index(moves[i]) <= Index(m)
    {
      var k :| 0 <= k < |moves| && moves[k] == m;
      assert !(k < i);
    }
  }

  /** The AI's pieces with nothing on top among the first n cells, in scan order. */
  function RemovalsUpTo(g: Grid, ai: Player, n: int): seq<Position>
    requires 0 <= n <= CellCount
  {
    if n == 0 then []
    else
      var q := PosAt(n - 1);
      RemovalsUpTo(g, ai, n - 1) + (if Holds(g, q, ai) && Exposed(g, q) then [q] else [])
  }

  /** Every cell listed holds an exposed AI piece among the first n, and the list is in scan order. */
  lemma {:induction false} RemovalsUpToSound(g: Grid, ai: Player, n: int)
    requires 0 <= n <= CellCount
    ensures forall q | q in RemovalsUpTo(g, ai, n) :: CanTake(g, q) && Holds(g, q, ai) && Index(q) < n
    ensures forall i, j | 0 <= i < j < |RemovalsUpTo(g, ai, n)| ::
      Index(RemovalsUpTo(g, ai, n)[i]) < Index(RemovalsUpTo(g, ai, n)[j])
  {
    if n > 0 {
      RemovalsUpToSound(g, ai, n - 1);
      var prev, p, s := RemovalsUpTo(g, ai, n - 1), PosAt(n - 1), RemovalsUpTo(g, ai, n);
      assert s == prev + (if Holds(g, p, ai) && Exposed(g, p) then [p] else []);
      forall q | q in s ensures CanTake(g, q) && Holds(g, q, ai) && Index(q) < n {
        if q !in prev {
          assert q == p;
        }
      }
      forall i, j | 0 <= i < j < |s| ensures Index(s[i]) < Index(s[j]) {
        assert s[i] == prev[i] && prev[i] in prev;
        if j < |prev| {
          assert s[j] == prev[j];
        } else {
          assert s[j] == p;
        }
      }
    }
  }

  /** The removals FindBestRemoval weighs. */
  function RemovalCandidates(g: Grid, ai: Player): (ps: seq<Position>)
    ensures forall q | q in ps :: CanTake(g, q) && Holds(g, q, ai)
  {
    RemovalsUpToSound(g, ai, CellCount);
    RemovalsUpTo(g, ai, CellCount)
  }

  lemma {:induction false} RemovalsUpToComplete(g: Grid, ai: Player, n: int)
    requires 0 <= n <= CellCount
    ensures forall q | CanTake(g, q) && Holds(g, q, ai) && Index(q) < n :: q in RemovalsUpTo(g, ai, n)
  {
    if n > 0 {
      RemovalsUpToComplete(g, ai, n - 1);
      forall q | CanTake(g, q) && Holds(g, q, ai) && Index(q) < n ensures q in RemovalsUpTo(g, ai, n) {
        if Index(q) == n - 1 {
          IndexOfValid(q);
        }
      }
    }
  }

  /** The candidates are exactly the AI's pieces a removal may take, each once, in scan order. */
  lemma RemovalCandidatesExact(g: Grid, ai: Player)
    ensures forall q :: q in RemovalCandidates(g, ai) <==> CanTake(g, q) && Holds(g, q, ai)
    ensures forall i, j | 0 <= i < j < |RemovalCandidates(g, ai)| ::
      Index(RemovalCandidates(g, ai)[i]) < Index(RemovalCandidates(g, ai)[j])
  {
    RemovalsUpToSound(g, ai, CellCount);
    RemovalsUpToComplete(g, ai, CellCount);
    forall q | CanTake(g, q) ensures Index(q) < CellCount {
      IndexOfValid(q);
    }
  }

  /** The search's score for the AI taking the piece at q: the opponent moves next. */
  function RemovalScores(lines: seq<Line>, g: Grid, ai: Player, depth: int, ps: seq<Position>): (s: seq<int>)
    requires forall q | q in ps :: IsValid(q)
    ensures |s| == |ps|
  {
    seq(|ps|, i requires 0 <= i < |ps| => AlphaBeta(lines, Put(g, ps[i], None), ai, depth, false, MinValue, MaxValue))
  }

  /** Each search score of a candidate removal is its minimax value, never below the floor. */
  lemma RemovalScoresAreValues(lines: seq<Line>, g: Grid, ai: Player, depth: int, ps: seq<Position>)
    requires 0 <= depth <= MaxValue - 100 && 10 * |lines| <= MaxValue
    requires forall q | q in ps :: IsValid(q)
    ensures forall i | 0 <= i < |ps| :: RemovalScores(lines, g, ai, depth, ps)[i] == TakeValue(lines, g, ai, depth, ps[i])
    ensures forall i | 0 <= i < |ps| :: MinValue <= TakeValue(lines, g, ai, depth, ps[i])
  {
    forall i | 0 <= i < |ps|
      ensures RemovalScores(lines, g, ai, depth, ps)[i] == TakeValue(lines, g, ai, depth, ps[i])
      ensures MinValue <= TakeValue(lines, g, ai, depth, ps[i])
    {
      FullWindowIsMinimax(lines, Put(g, ps[i], None), ai, depth, false);
      MinimaxInRange(lines, Put(g, ps[i], None), ai, depth, false);
    }
  }

  /**
   * FindBestRemoval: (0,0,0) without a candidate, the only candidate when there is one, and
   * otherwise the first candidate with the highest search score.
   */
  function BestRemoval(lines: seq<Line>, g: Grid, ai: Player, depth: int): Position {
    var ps := RemovalCandidates(g, ai);
    if ps == [] then Position(0, 0, 0)
    else if |ps| == 1 then ps[0]
    else ps[ScanBest(RemovalScores(lines, g, ai, depth, ps), MinValue).0]
  }

  /** Whenever the AI has a piece it may take, the chosen removal is one of them. */
  lemma BestRemovalIsLegal(lines: seq<Line>, g: Grid, ai: Player, depth: int)
    requires RemovalCandidates(g, ai) != []
    ensures CanTake(g, BestRemoval(lines, g, ai, depth)) && Holds(g, BestRemoval(lines, g, ai, depth), ai)
  {
    var ps := RemovalCandidates(g, ai);
    if |ps| > 1 {
      var i := ScanBest(RemovalScores(lines, g, ai, depth, ps), MinValue).0;
      assert BestRemoval(lines, g, ai, depth) == ps[i];
      assert ps[i] in ps;
    } else {
      assert ps[0] in ps;
    }
  }

  /** The value, by plain minimax, of the AI taking the piece at q. */
  function TakeValue(lines: seq<Line>, g: Grid, ai: Player, depth: int, q: Position): int
    requires IsValid(q)
  {
    MinimaxValue(lines, Put(g, q, None), ai, depth, false)
  }

  /** Among several candidates, the scan picks the first one of highest minimax value. */
  lemma ScanChoosesBestRemoval(lines: seq<Line>, g: Grid, ai: Player, depth: int, ps: seq<Position>)
    requires 0 <= depth <= MaxValue - 100 && 10 * |lines| <= MaxValue
    requires |ps| > 0 && forall q | q in ps :: IsValid(q)
    ensures var i := ScanBest(RemovalScores(lines, g, ai, depth, ps), MinValue).0;
      && 0 <= i < |ps|
      && (forall j | 0 <= j < |ps| :: TakeValue(lines, g, ai, depth, ps[j]) <= TakeValue(lines, g, ai, depth, ps[i]))
      && (forall j | 0 <= j < |ps| && TakeValue(lines, g, ai, depth, ps[j]) == TakeValue(lines, g, ai, depth, ps[i]) :: i <= j)
  {
    var scores := RemovalScores(lines, g, ai, depth, ps);
    RemovalScoresAreValues(lines, g, ai, depth, ps);
    FirstMaximum(scores, MinValue);
  }

  /**
   * Whenever the AI has a piece it may take, the chosen removal is one of them, and it has the
   * highest minimax value among them, the earliest in scan order on a tie.
   */
  lemma BestRemovalMaximises(lines: seq<Line>, g: Grid, ai: Player, depth: int)
    requires 0 <= depth <= MaxValue - 100 && 10 * |lines| <= MaxValue
    requires RemovalCandidates(g, ai) != []
    ensures var b := BestRemoval(lines, g, ai, depth);
      && CanTake(g, b) && Holds(g, b, ai)
      && (forall q | CanTake(g, q) && Holds(g, q, ai) :: TakeValue(lines, g, ai, depth, q) <= TakeValue(lines, g, ai, depth, b))
      && (forall q | CanTake(g, q) && Holds(g, q, ai) && TakeValue(lines, g, ai, depth, q) == TakeValue(lines, g, ai, depth, b) ::
            Index(b) <= Index(q))
  {
    var ps := RemovalCandidates(g, ai);
    var b := BestRemoval(lines, g, ai, depth);
    RemovalCandidatesExact(g, ai);
    if |ps| == 1 {
      forall q | CanTake(g, q) && Holds(g, q, ai) ensures q == ps[0] {
        assert q in ps;
      }
    } else {
      var i := ScanBest(RemovalScores(lines, g, ai, depth, ps), MinValue).0;
      assert 0 <= i < |ps| && b == ps[i] && ps[i] in ps;
      assert && (forall j | 0 <= j < |ps| :: TakeValue(lines, g, ai, depth, ps[j]) <= TakeValue(lines, g, ai, depth, ps[i]))
             && (forall j | 0 <= j < |ps| && TakeValue(lines, g, ai, depth, ps[j]) == TakeValue(lines, g, ai, depth, ps[i]) :: i <= j) by {
        ScanChoosesBestRemoval(lines, g, ai, depth, ps);
      }
      forall q | CanTake(g, q) && Holds(g, q, ai)
        ensures TakeValue(lines, g, ai, depth, q) <= TakeValue(lines, g, ai, depth, b)
        ensures TakeValue(lines, g, ai, depth, q) == TakeValue(lines, g, ai, depth, b) ==> Index(b) <= Index(q)
      {
        var k :| 0 <= k < |ps| && ps[k] == q;
      }
    }
  }
}
