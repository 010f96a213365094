/**
 * The win-line catalogue (WinConditionChecker): the lines of three cells a player must fill to
 * win, generated once from two flags, and the queries that look for a filled line.
 */
module WinLines {
  import opened Wrappers
  import opened GridPositions
  import opened Pieces
  import opened Layout
  import opened Boards

  /** A win line: the cells in generation order. */
  type Line = seq<Position>

  /** Lines along x, one per (y, z), y outermost. */
  function XLines(): (r: seq<Line>)
    ensures |r| == 9
  {
    seq(9, k requires 0 <= k < 9 => seq(3, x => Position(x, k / 3, k % 3)))
  }

  /** Lines along z, one per (y, x), y outermost. */
  function ZLines(): (r: seq<Line>)
    ensures |r| == 9
  {
    seq(9, k requires 0 <= k < 9 => seq(3, z => Position(k % 3, k / 3, z)))
  }

  /** Columns (lines along y), one per (x, z), x outermost. */
  function YLines(): (r: seq<Line>)
    ensures |r| == 9
  {
    seq(9, k requires 0 <= k < 9 => seq(3, y => Position(k / 3, y, k % 3)))
  }

  /** The two diagonals of each horizontal layer, bottom layer first. */
  function LayerDiagonals(): (r: seq<Line>)
    ensures |r| == 6
  {
    seq(6, k requires 0 <= k < 6 =>
      var y := k / 2;
      if k % 2 == 0 then [Position(0, y, 0), Position(1, y, 1), Position(2, y, 2)]
      else [Position(2, y, 0), Position(1, y, 1), Position(0, y, 2)])
  }

  /** The four diagonals through the centre of the cube. */
  function SpaceDiagonals(): (r: seq<Line>)
    ensures |r| == 4
  {
    [[Position(0, 0, 0), Position(1, 1, 1), Position(2, 2, 2)],
     [Position(2, 0, 0), Position(1, 1, 1), Position(0, 2, 2)],
     [Position(0, 0, 2), Position(1, 1, 1), Position(2, 2, 0)],
     [Position(2, 0, 2), Position(1, 1, 1), Position(0, 2, 0)]]
  }

  /** What GenerateStraightLines adds: the columns only when vertical wins are enabled. */
  function StraightLines(vertical: bool): seq<Line> {
    XLines() + ZLines() + (if vertical then YLines() else [])
  }

  /**
   * The catalogue GenerateWinLines builds. GenerateVerticalLines adds nothing, so the columns
   * appear once, among the straight lines.
   */
  function Catalogue(vertical: bool, diag3D: bool): (r: seq<Line>)
    ensures |r| == 24 + (if vertical then 9 else 0) + (if diag3D then 4 else 0)
  {
    StraightLines(vertical) + LayerDiagonals() + (if diag3D then SpaceDiagonals() else [])
  }

  // ---------------------------------------------------------------------------------------
  // What a line is made of

  /** Three different cells of the board. */
  predicate WellFormed(line: Line) {
    |line| == 3 && (forall i | 0 <= i < 3 :: IsValid(line[i]))
    && line[0] != line[1] && line[1] != line[2] && line[0] != line[2]
  }

  /** A column: x and z fixed. */
  predicate IsColumn(line: Line) {
    |line| == 3 && line[0].x == line[1].x == line[2].x && line[0].z == line[1].z == line[2].z
  }

  predicate NotColumn(line: Line) {
    !IsColumn(line)
  }

  /** A space diagonal: all three coordinates change along the line. */
  predicate IsSpaceDiagonal(line: Line) {
    |line| == 3 && line[0].x != line[1].x && line[0].y != line[1].y && line[0].z != line[1].z
  }

  predicate NotSpaceDiagonal(line: Line) {
    !IsSpaceDiagonal(line)
  }

  /** A diagonal of a vertical plane: the height changes and exactly one of x and z is fixed. */
  predicate IsVerticalPlaneDiagonal(line: Line) {
    |line| == 3 && line[0].y != line[1].y && ((line[0].x == line[1].x) != (line[0].z == line[1].z))
  }

  /** The lines of a list that satisfy f, in order. */
  function Keep(lines: seq<Line>, f: Line -> bool): (r: seq<Line>)
    ensures |r| <= |lines|
  {
    if lines == [] then []
    else (if f(lines[0]) then [lines[0]] else []) + Keep(lines[1..], f)
  }

  lemma {:induction false} KeepConcat(a: seq<Line>, b: seq<Line>, f: Line -> bool)
    ensures Keep(a + b, f) == Keep(a, f) + Keep(b, f)
  {
    if a != [] {
      assert (a + b)[0] == a[0];
      assert (a + b)[1..] == a[1..] + b;
      KeepConcat(a[1..], b, f);
    } else {
      assert a + b == b;
    }
  }

  lemma {:induction false} KeepEvery(lines: seq<Line>, f: Line -> bool)
    requires forall i | 0 <= i < |lines| :: f(lines[i])
    ensures Keep(lines, f) == lines
  {
    if lines != [] {
      KeepEvery(lines[1..], f);
    }
  }

  lemma {:induction false} KeepNone(lines: seq<Line>, f: Line -> bool)
    requires forall i | 0 <= i < |lines| :: !f(lines[i])
    ensures Keep(lines, f) == []
  {
    if lines != [] {
      KeepNone(lines[1..], f);
    }
  }

  lemma StraightKeepsNonColumns()
    ensures Keep(XLines(), NotColumn) == XLines() && Keep(ZLines(), NotColumn) == ZLines()
    ensures Keep(YLines(), NotColumn) == []
  {
    KeepEvery(XLines(), NotColumn);
    KeepEvery(ZLines(), NotColumn);
    KeepNone(YLines(), NotColumn);
  }

  lemma DiagonalsKeepNonColumns(diag3D: bool)
    ensures var ds := LayerDiagonals() + (if diag3D then SpaceDiagonals() else []);
      Keep(ds, NotColumn) == ds
  {
    var ds := LayerDiagonals() + (if diag3D then SpaceDiagonals() else []);
    forall i | 0 <= i < |ds| ensures NotColumn(ds[i]) {
      if i < 6 {
        assert ds[i] == LayerDiagonals()[i];
      }
    }
    KeepEvery(ds, NotColumn);
  }

  /** Keeping what f accepts from a + m + d, where f accepts all of a and d and none of m. */
  lemma KeepSkipsMiddle(a: seq<Line>, m: seq<Line>, d: seq<Line>, f: Line -> bool)
    requires Keep(a, f) == a && Keep(m, f) == [] && Keep(d, f) == d
    ensures Keep(a + m + d, f) == a + d
  {
    KeepConcat(a + m, d, f);
    KeepConcat(a, m, f);
  }

  /** Turning vertical wins off removes exactly the columns and nothing else. */
  lemma VerticalFlagDropsColumns(diag3D: bool)
    ensures Catalogue(false, diag3D) == Keep(Catalogue(true, diag3D), NotColumn)
  {
    var a := XLines() + ZLines();
    var ds := LayerDiagonals() + (if diag3D then SpaceDiagonals() else []);
    assert Catalogue(true, diag3D) == a + YLines() + ds;
    assert Catalogue(false, diag3D) == a + ds by {
      assert StraightLines(false) == a + [];
    }
    assert Keep(a, NotColumn) == a by {
      StraightKeepsNonColumns();
      KeepConcat(XLines(), ZLines(), NotColumn);
    }
    assert Keep(YLines(), NotColumn) == [] && Keep(ds, NotColumn) == ds by {
      StraightKeepsNonColumns();
      DiagonalsKeepNonColumns(diag3D);
    }
    KeepSkipsMiddle(a, YLines(), ds, NotColumn);
  }

  /** The lines the vertical flag controls are all columns. */
  lemma YLinesAreColumns()
    ensures forall i | 0 <= i < |YLines()| :: IsColumn(YLines()[i])
  {
  }

  lemma FrontKeepsNonSpaceDiagonals(vertical: bool)
    ensures Keep(StraightLines(vertical) + LayerDiagonals(), NotSpaceDiagonal) == StraightLines(vertical) + LayerDiagonals()
  {
    var front := StraightLines(vertical) + LayerDiagonals();
    forall i | 0 <= i < |front| ensures NotSpaceDiagonal(front[i]) {
      if i < 9 {
        assert front[i] == XLines()[i];
      } else if i < 18 {
        assert front[i] == ZLines()[i - 9];
      } else if vertical && i < 27 {
        assert front[i] == YLines()[i - 18];
      } else {
        assert front[i] == LayerDiagonals()[i - |StraightLines(vertical)|];
      }
    }
    KeepEvery(front, NotSpaceDiagonal);
  }

  /** Turning 3D diagonals off removes exactly the space diagonals and nothing else. */
  lemma DiagonalFlagDropsSpaceDiagonals(vertical: bool)
    ensures Catalogue(vertical, false) == Keep(Catalogue(vertical, true), NotSpaceDiagonal)
    ensures forall i | 0 <= i < |SpaceDiagonals()| :: IsSpaceDiagonal(SpaceDiagonals()[i])
  {
    var front := StraightLines(vertical) + LayerDiagonals();
    assert Catalogue(vertical, true) == front + SpaceDiagonals();
    assert Catalogue(vertical, false) == front + [];
    KeepConcat(front, SpaceDiagonals(), NotSpaceDiagonal);
    KeepNone(SpaceDiagonals(), NotSpaceDiagonal);
    FrontKeepsNonSpaceDiagonals(vertical);
  }

  lemma SegmentsWellFormed()
    ensures forall i | 0 <= i < 9 :: WellFormed(XLines()[i]) && WellFormed(ZLines()[i]) && WellFormed(YLines()[i])
    ensures forall i | 0 <= i < 6 :: WellFormed(LayerDiagonals()[i])
    ensures forall i | 0 <= i < 4 :: WellFormed(SpaceDiagonals()[i])
  {
  }

  /** Every generated line is three distinct cells of the board. */
  lemma LinesWellFormed(vertical: bool, diag3D: bool)
    ensures forall line | line in Catalogue(vertical, diag3D) :: WellFormed(line)
  {
    var c := Catalogue(vertical, diag3D);
    var ys := if vertical then 9 else 0;
    SegmentsWellFormed();
    forall k | 0 <= k < |c| ensures WellFormed(c[k]) {
      if k < 9 {
        assert c[k] == XLines()[k];
      } else if k < 18 {
        assert c[k] == ZLines()[k - 9];
      } else if k < 18 + ys {
        assert c[k] == YLines()[k - 18];
      } else if k < 24 + ys {
        assert c[k] == LayerDiagonals()[k - 18 - ys];
      } else {
        assert c[k] == SpaceDiagonals()[k - 24 - ys];
      }
    }
    forall line | line in c ensures WellFormed(line) {
      var k :| 0 <= k < |c| && c[k] == line;
    }
  }

  /** Layer diagonals stay in one layer, and no line is a diagonal of a vertical plane. */
  lemma NoVerticalPlaneDiagonals(vertical: bool, diag3D: bool)
    ensures forall line: Line | line in LayerDiagonals() :: |line| == 3 && line[0].y == line[1].y == line[2].y
    ensures forall line | line in Catalogue(vertical, diag3D) :: !IsVerticalPlaneDiagonal(line)
  {
    forall line | line in Catalogue(vertical, diag3D) ensures !IsVerticalPlaneDiagonal(line) {
      var k :| 0 <= k < |Catalogue(vertical, diag3D)| && Catalogue(vertical, diag3D)[k] == line;
    }
  }

  /** No two lines of a list are equal. */
  predicate Distinct(lines: seq<Line>) {
    forall i, j | 0 <= i < j < |lines| :: lines[i] != lines[j]
  }

  /** The step from a line's first cell to its second. */
  function Direction(line: Line): (int, int, int)
    requires |line| >= 2
  {
    (line[1].x - line[0].x, line[1].y - line[0].y, line[1].z - line[0].z)
  }

  lemma DistinctConcat(a: seq<Line>, b: seq<Line>)
    requires Distinct(a) && Distinct(b)
    requires forall i, j | 0 <= i < |a| && 0 <= j < |b| :: a[i] != b[j]
    ensures Distinct(a + b)
  {
  }

  lemma SegmentsDistinct()
    ensures Distinct(XLines()) && Distinct(ZLines()) && Distinct(YLines()) && Distinct(LayerDiagonals())
  {
    forall i, j | 0 <= i < j < 9 ensures XLines()[i] != XLines()[j] {
      assert XLines()[i][0] != XLines()[j][0];
    }
    forall i, j | 0 <= i < j < 9 ensures ZLines()[i] != ZLines()[j] {
      assert ZLines()[i][0] != ZLines()[j][0];
    }
    forall i, j | 0 <= i < j < 9 ensures YLines()[i] != YLines()[j] {
      assert YLines()[i][0] != YLines()[j][0];
    }
    forall i, j | 0 <= i < j < 6 ensures LayerDiagonals()[i] != LayerDiagonals()[j] {
      assert LayerDiagonals()[i][0] != LayerDiagonals()[j][0] || LayerDiagonals()[i][2] != LayerDiagonals()[j][2];
    }
  }

  /** Lines of different kinds differ in the step from their first cell to their second. */
  lemma SegmentDirections()
    ensures forall i | 0 <= i < 9 :: Direction(XLines()[i]) == (1, 0, 0)
    ensures forall i | 0 <= i < 9 :: Direction(ZLines()[i]) == (0, 0, 1)
    ensures forall i | 0 <= i < 9 :: Direction(YLines()[i]) == (0, 1, 0)
    ensures forall i | 0 <= i < 6 :: Direction(LayerDiagonals()[i]).1 == 0 && Direction(LayerDiagonals()[i]).0 != 0
    ensures forall i | 0 <= i < 4 :: Direction(SpaceDiagonals()[i]).1 == 1
  {
  }

  /** No line is generated twice; in particular no column is added twice. */
  lemma CatalogueDistinct(vertical: bool, diag3D: bool)
    ensures Distinct(Catalogue(vertical, diag3D))
  {
    var xs, zs, ls := XLines(), ZLines(), LayerDiagonals();
    var ys := if vertical then YLines() else [];
    var ss := if diag3D then SpaceDiagonals() else [];
    SegmentsDistinct();
    SegmentDirections();
    DistinctConcat(xs, zs);
    DistinctConcat(xs + zs, ys);
    DistinctConcat(xs + zs + ys, ls);
    DistinctConcat(xs + zs + ys + ls, ss);
    assert Catalogue(vertical, diag3D) == xs + zs + ys + ls + ss;
  }

  // ---------------------------------------------------------------------------------------
  // Filled lines

  /** The cell is on the board and holds a piece of p (GetPieceAt gives nothing off the board). */
  predicate Holds(g: Grid, pos: Position, p: Player) {
    IsValid(pos) && g[Index(pos)] == Some(p)
  }

  /** Every cell of the line holds a piece of p. */
  predicate LineOwnedBy(g: Grid, line: Line, p: Player) {
    forall pos | pos in line :: Holds(g, pos, p)
  }

  /** Some line through pos is filled by p. */
  predicate WinsThrough(lines: seq<Line>, g: Grid, pos: Position, p: Player) {
    exists line | line in lines :: pos in line && LineOwnedBy(g, line, p)
  }

  /** Some line is filled by p. */
  predicate HasLine(lines: seq<Line>, g: Grid, p: Player) {
    exists line | line in lines :: LineOwnedBy(g, line, p)
  }

  /** A win through the last cell played is a win: the narrowed check only looks at fewer lines. */
  lemma WinsThroughIsWin(lines: seq<Line>, g: Grid, pos: Position, p: Player)
    requires WinsThrough(lines, g, pos, p)
    ensures HasLine(lines, g, p)
  {
  }

  /**
   * A line filled by p, found on the board after p played pos, must pass through pos when the
   * board before the move had no filled line for p.
   */
  lemma NewWinPassesThroughMove(lines: seq<Line>, g: Grid, pos: Position, p: Player)
    requires IsValid(pos) && !HasLine(lines, g, p)
    ensures HasLine(lines, Put(g, pos, Some(p)), p) <==> WinsThrough(lines, Put(g, pos, Some(p)), pos, p)
  {
    var g' := Put(g, pos, Some(p));
    if HasLine(lines, g', p) {
      var line :| line in lines && LineOwnedBy(g', line, p);
      assert !LineOwnedBy(g, line, p);
    }
  }

  class WinConditionChecker {
    const board: BoardManager
    const enableDiagonal3D: bool
    const enableVerticalWins: bool
    var winLines: seq<Line>

    /** The component as loaded: references and flags set, no lines yet. */
    constructor (board: BoardManager, enableDiagonal3D: bool, enableVerticalWins: bool)
      ensures this.board == board && this.enableDiagonal3D == enableDiagonal3D
      ensures this.enableVerticalWins == enableVerticalWins && winLines == []
    {
      this.board := board;
      this.enableDiagonal3D := enableDiagonal3D;
      this.enableVerticalWins := enableVerticalWins;
      winLines := [];
    }

    /** Initialize: the catalogue for the flags, whatever was there before. */
    method Initialize()
      modifies this
      ensures winLines == Catalogue(enableVerticalWins, enableDiagonal3D)
    {
      GenerateWinLines();
    }

    method GenerateWinLines()
      modifies this
      ensures winLines == Catalogue(enableVerticalWins, enableDiagonal3D)
    {
      winLines := [];
      GenerateStraightLines();
      GenerateLayerDiagonals();
      if enableVerticalWins {
        GenerateVerticalLines();
      }
      if enableDiagonal3D {
        Generate3DDiagonals();
      }
    }

    method GenerateStraightLines()
      modifies this
      ensures winLines == old(winLines) + StraightLines(enableVerticalWins)
    {
      AddLinesAlongX();
      AddLinesAlongZ();
      if enableVerticalWins {
        AddLinesAlongY();
      }
    }

    /** The first block of GenerateStraightLines: for each layer and depth, the row along x. */
    method AddLinesAlongX()
      modifies this
      ensures winLines == old(winLines) + XLines()
    {
      for y := 0 to 3
        invariant winLines == old(winLines) + XLines()[..3 * y]
      {
        for z := 0 to 3
          invariant winLines == old(winLines) + XLines()[..3 * y + z]
        {
          var line: Line := [];
          for x := 0 to 3
            invariant line == seq(x, i => Position(i, y, z))
          {
            line := line + [Position(x, y, z)];
          }
          assert XLines()[..3 * y + z + 1] == XLines()[..3 * y + z] + [line];
          winLines := winLines + [line];
        }
      }
    }

    /** The second block: for each layer and column, the row along z. */
    method AddLinesAlongZ()
      modifies this
      ensures winLines == old(winLines) + ZLines()
    {
      for y := 0 to 3
        invariant winLines == old(winLines) + ZLines()[..3 * y]
      {
        for x := 0 to 3
          invariant winLines == old(winLines) + ZLines()[..3 * y + x]
        {
          var line: Line := [];
          for z := 0 to 3
            invariant line == seq(z, i => Position(x, y, i))
          {
            line := line + [Position(x, y, z)];
          }
          assert ZLines()[..3 * y + x + 1] == ZLines()[..3 * y + x] + [line];
          winLines := winLines + [line];
        }
      }
    }

    /** The third block, run only when vertical wins are on: every column along y. */
    method AddLinesAlongY()
      modifies this
      ensures winLines == old(winLines) + YLines()
    {
      for x := 0 to 3
        invariant winLines == old(winLines) + YLines()[..3 * x]
      {
        for z := 0 to 3
          invariant winLines == old(winLines) + YLines()[..3 * x + z]
        {
          var line: Line := [];
          for y := 0 to 3
            invariant line == seq(y, i => Position(x, i, z))
          {
            line := line + [Position(x, y, z)];
          }
          assert YLines()[..3 * x + z + 1] == YLines()[..3 * x + z] + [line];
          winLines := winLines + [line];
        }
      }
    }

    method GenerateLayerDiagonals()
      modifies this
      ensures winLines == old(winLines) + LayerDiagonals()
    {
      for y := 0 to 3
        invariant winLines == old(winLines) + LayerDiagonals()[..2 * y]
      {
        var diag1 := [Position(0, y, 0), Position(1, y, 1), Position(2, y, 2)];
        winLines := winLines + [diag1];
        var diag2 := [Position(2, y, 0), Position(1, y, 1), Position(0, y, 2)];
        winLines := winLines + [diag2];
        assert LayerDiagonals()[..2 * y + 2] == LayerDiagonals()[..2 * y] + [diag1, diag2];
      }
    }

    /** GenerateVerticalLines: the columns already come with the straight lines. */
    method GenerateVerticalLines()
      ensures unchanged(this)
    {
    }

    method Generate3DDiagonals()
      modifies this
      ensures winLines == old(winLines) + SpaceDiagonals()
    {
      winLines := winLines + [[Position(0, 0, 0), Position(1, 1, 1), Position(2, 2, 2)]];
      winLines := winLines + [[Position(2, 0, 0), Position(1, 1, 1), Position(0, 2, 2)]];
      winLines := winLines + [[Position(0, 0, 2), Position(1, 1, 1), Position(2, 2, 0)]];
      winLines := winLines + [[Position(2, 0, 2), Position(1, 1, 1), Position(0, 2, 0)]];
    }

    /** ContainsPosition: coordinate-wise comparison, that is, membership. */
    method ContainsPosition(line: Line, position: Position) returns (r: bool)
      ensures r <==> position in line
    {
      for i := 0 to |line|
        invariant position !in line[..i]
      {
        var pos := line[i];
        if pos.x == position.x && pos.y == position.y && pos.z == position.z {
          return true;
        }
      }
      assert line[..|line|] == line;
      return false;
    }

    /** CheckLine: every cell of the line holds a piece of the player. */
    method CheckLine(line: Line, playerType: Player) returns (r: bool)
      requires board.Valid()
      ensures r <==> LineOwnedBy(board.Occupancy(), line, playerType)
    {
      ghost var g := board.Occupancy();
      for i := 0 to |line|
        invariant forall j | 0 <= j < i :: Holds(g, line[j], playerType)
      {
        var piece := board.GetPieceAt(line[i]);
        if piece == null || piece.owner != playerType {
          assert !Holds(g, line[i], playerType);
          return false;
        }
      }
      return true;
    }

    /** CheckForWin: some line through the last cell played is filled by the player. */
    method CheckForWin(lastPlacedPosition: Position, playerType: Player) returns (r: bool)
      requires board.Valid()
      ensures r <==> WinsThrough(winLines, board.Occupancy(), lastPlacedPosition, playerType)
    {
      for i := 0 to |winLines|
        invariant !WinsThrough(winLines[..i], board.Occupancy(), lastPlacedPosition, playerType)
      {
        var line := winLines[i];
        var through := ContainsPosition(line, lastPlacedPosition);
        if through {
          var filled := CheckLine(line, playerType);
          if filled {
            return true;
          }
        }
        assert winLines[..i + 1] == winLines[..i] + [line];
      }
      assert winLines[..|winLines|] == winLines;
      return false;
    }

    /** CheckBoardState: some line is filled by either player. */
    method CheckBoardState() returns (r: bool)
      requires board.Valid()
      ensures r <==> HasLine(winLines, board.Occupancy(), X) || HasLine(winLines, board.Occupancy(), O)
    {
      for i := 0 to |winLines|
        invariant !HasLine(winLines[..i], board.Occupancy(), X) && !HasLine(winLines[..i], board.Occupancy(), O)
      {
        var line := winLines[i];
        var byX := CheckLine(line, X);
        if byX {
          return true;
        }
        var byO := CheckLine(line, O);
        if byO {
          return true;
        }
        assert winLines[..i + 1] == winLines[..i] + [line];
      }
      assert winLines[..|winLines|] == winLines;
      return false;
    }
  }
}
