/**
 * The board (BoardManager): a 3 x 3 x 3 array of piece references, updated in place, and a
 * second array used as a snapshot while the AI explores hypothetical moves.
 */
module Boards {
  import opened Wrappers
  import opened GridPositions
  import opened Pieces
  import opened Layout

  predicate IsCube(a: array3<Piece?>) {
    a.Length0 == 3 && a.Length1 == 3 && a.Length2 == 3
  }

  /** The cells of a board array in scan order. */
  function CellsOf(a: array3<Piece?>): (c: seq<Piece?>)
    requires IsCube(a)
    reads a
    ensures |c| == CellCount
  {
    seq(27, i requires 0 <= i < 27 reads a => a[i % 3, i / 9, (i / 3) % 3])
  }

  /** The view holds each cell at its scan position. */
  lemma CellOf(a: array3<Piece?>, p: Position)
    requires IsCube(a) && IsValid(p)
    ensures CellsOf(a)[Index(p)] == a[p.x, p.y, p.z]
  {
    IndexOfValid(p);
  }

  /** Who holds each cell. */
  function OwnersOf(c: seq<Piece?>): (g: Grid)
    requires |c| == CellCount
    ensures forall i | 0 <= i < CellCount :: g[i] == if c[i] == null then None else Some(c[i].owner)
  {
    seq(27, i requires 0 <= i < 27 => if c[i] == null then None else Some(c[i].owner))
  }

  lemma OwnersOfUpdate(c: seq<Piece?>, p: Position, q: Piece?)
    requires |c| == CellCount && IsValid(p)
    ensures OwnersOf(c[Index(p) := q]) == Put(OwnersOf(c), p, if q == null then None else Some(q.owner))
  {
    IndexOfValid(p);
  }

  /** The pieces among the cells, in the order listed: what GetAllPieces returns. */
  function NonNull(c: seq<Piece?>): (r: seq<Piece>)
    ensures |r| <= |c|
  {
    if c == [] then []
    else NonNull(c[..|c| - 1]) + (if c[|c| - 1] == null then [] else [c[|c| - 1]])
  }

  /** The pieces of one player among the cells, in the order listed: what GetPlayerPieces returns. */
  function OwnedBy(c: seq<Piece?>, who: Player): (r: seq<Piece>)
    ensures |r| <= |c|
  {
    if c == [] then []
    else
      var last := c[|c| - 1];
      OwnedBy(c[..|c| - 1], who) + (if last != null && last.owner == who then [last] else [])
  }

  /** A list of pieces narrowed to one owner, order kept. */
  function FilterOwner(s: seq<Piece>, who: Player): seq<Piece> {
    if s == [] then []
    else FilterOwner(s[..|s| - 1], who) + (if s[|s| - 1].owner == who then [s[|s| - 1]] else [])
  }

  lemma NonNullStep(c: seq<Piece?>, k: int)
    requires 0 <= k < |c|
    ensures NonNull(c[..k + 1]) == NonNull(c[..k]) + (if c[k] == null then [] else [c[k]])
  {
    assert c[..k + 1][..k] == c[..k];
  }

  lemma OwnedByStep(c: seq<Piece?>, who: Player, k: int)
    requires 0 <= k < |c|
    ensures OwnedBy(c[..k + 1], who) == OwnedBy(c[..k], who) + (if c[k] != null && c[k].owner == who then [c[k]] else [])
  {
    assert c[..k + 1][..k] == c[..k];
  }

  /** The listed pieces are exactly the non-empty cells. */
  lemma {:induction false} NonNullMembers(c: seq<Piece?>)
    ensures forall q: Piece :: q in NonNull(c) <==> q in c
  {
    if c != [] {
      NonNullMembers(c[..|c| - 1]);
      assert c == c[..|c| - 1] + [c[|c| - 1]];
    }
  }

  /** The listed pieces of a player are exactly that player's pieces among the cells. */
  lemma {:induction false} OwnedByMembers(c: seq<Piece?>, who: Player)
    ensures forall q: Piece :: q in OwnedBy(c, who) <==> q in c && q.owner == who
  {
    if c != [] {
      OwnedByMembers(c[..|c| - 1], who);
      assert c == c[..|c| - 1] + [c[|c| - 1]];
    }
  }

  /** GetPlayerPieces(p) is GetAllPieces() narrowed to the pieces p owns. */
  lemma {:induction false} OwnedByIsFilteredNonNull(c: seq<Piece?>, who: Player)
    ensures OwnedBy(c, who) == FilterOwner(NonNull(c), who)
  {
    if c != [] {
      OwnedByIsFilteredNonNull(c[..|c| - 1], who);
      var s := NonNull(c[..|c| - 1]);
      var last := c[|c| - 1];
      if last != null {
        assert NonNull(c) == s + [last];
        assert (s + [last])[..|s|] == s;
      } else {
        assert NonNull(c) == s;
      }
    }
  }

  class BoardManager {
    const grid: array3<Piece?>
    const simulationGrid: array3<Piece?>

    ghost predicate Valid() {
      IsCube(grid) && IsCube(simulationGrid) && grid != simulationGrid
    }

    constructor ()
      ensures Valid() && fresh(grid) && fresh(simulationGrid)
      ensures Occupancy() == EmptyGrid()
    {
      grid := new Piece?[3, 3, 3]((_, _, _) => null);
      simulationGrid := new Piece?[3, 3, 3]((_, _, _) => null);
    }

    /** The live cells in scan order. */
    function Cells(): (c: seq<Piece?>)
      requires Valid()
      reads grid
      ensures |c| == CellCount
    {
      CellsOf(grid)
    }

    /** The live board as a value. */
    function Occupancy(): Grid
      requires Valid()
      reads grid
    {
      OwnersOf(Cells())
    }

    /** The pieces on the board. */
    function PieceSet(): set<Piece>
      requires Valid()
      reads grid
    {
      set i | 0 <= i < CellCount && Cells()[i] != null :: Cells()[i]
    }

    /** Every piece on the board records the cell it sits in. */
    ghost predicate Consistent()
      requires Valid()
      reads grid, PieceSet()
    {
      forall i | 0 <= i < CellCount :: Cells()[i] != null ==> Cells()[i].position == PosAt(i)
    }

    /** A piece on a consistent board sits in the cell it records. */
    lemma PieceRecordsCell(piece: Piece)
      requires Valid() && Consistent() && piece in Cells()
      ensures IsValid(piece.position) && Cells()[Index(piece.position)] == piece
      ensures Occupancy()[Index(piece.position)] == Some(piece.owner)
    {
      var i :| 0 <= i < CellCount && Cells()[i] == piece;
    }

    /** A listed piece of a player on a consistent board sits in its cell, held by that player. */
    lemma OwnedPieceRecordsCell(playerType: Player, piece: Piece)
      requires Valid() && Consistent() && piece in OwnedBy(Cells(), playerType)
      ensures IsValid(piece.position) && Occupancy()[Index(piece.position)] == Some(playerType)
    {
      OwnedByMembers(Cells(), playerType);
      PieceRecordsCell(piece);
    }

    /** The scan-order views agree with the array. */
    lemma CellAt(p: Position)
      requires Valid() && IsValid(p)
      ensures Cells()[Index(p)] == grid[p.x, p.y, p.z]
      ensures Occupied(Occupancy(), p) <==> grid[p.x, p.y, p.z] != null
    {
      CellOf(grid, p);
    }

    /** HasSupportBelow: true on the bottom layer, otherwise whether the cell below is filled. */
    function HasSupportBelow(position: Position): (r: bool)
      requires Valid()
      requires position.y != 0 ==> IsValid(Below(position))
      reads grid
      ensures position.y == 0 ==> r
      ensures IsValid(position) ==> (r <==> HasSupport(Occupancy(), position))
    {
      if position.y == 0 then true
      else
        CellAt(Below(position));
        grid[position.x, position.y - 1, position.z] != null
    }

    /** IsPositionEmpty: the cell holds no piece. */
    function IsPositionEmpty(position: Position): (r: bool)
      requires Valid() && IsValid(position)
      reads grid
      ensures r <==> !Occupied(Occupancy(), position)
      ensures r <==> Cells()[Index(position)] == null
    {
      CellAt(position);
      grid[position.x, position.y, position.z] == null
    }

    /** PlacePiece: refused off the board, on a filled cell or without support; otherwise fills that cell only. */
    method PlacePiece(piece: Piece, position: Position) returns (ok: bool)
      requires Valid()
      modifies grid
      ensures ok <==> CanPlace(old(Occupancy()), position)
      ensures ok ==> Cells() == old(Cells())[Index(position) := piece]
      ensures ok ==> Occupancy() == Put(old(Occupancy()), position, Some(piece.owner))
      ensures !ok ==> unchanged(grid)
    {
      if !IsValid(position) || !IsPositionEmpty(position) || !HasSupportBelow(position) {
        return false;
      }
      AllCells(grid);
      grid[position.x, position.y, position.z] := piece;
      WriteCell(old(Cells()), grid, position);
      OwnersOfUpdate(old(Cells()), position, piece);
      return true;
    }

    /** RemovePiece: refused off the board, on an empty cell or under another piece; otherwise empties that cell only. */
    method RemovePiece(position: Position) returns (ok: bool)
      requires Valid()
      modifies grid
      ensures ok <==> CanTake(old(Occupancy()), position)
      ensures ok ==> Cells() == old(Cells())[Index(position) := null]
      ensures ok ==> Occupancy() == Put(old(Occupancy()), position, None)
      ensures !ok ==> unchanged(grid)
      ensures old(Consistent()) ==> Consistent()
    {
      if !IsValid(position) || IsPositionEmpty(position) {
        return false;
      }
      if position.y < 2 && grid[position.x, position.y + 1, position.z] != null {
        CellAt(Above(position));
        return false;
      }
      AllCells(grid);
      grid[position.x, position.y, position.z] := null;
      WriteCell(old(Cells()), grid, position);
      OwnersOfUpdate(old(Cells()), position, null);
      return true;
    }

    /** GetPlayerPieces: the player's pieces in scan order (layer by layer, then row, then column). */
    method GetPlayerPieces(playerType: Player) returns (pieces: seq<Piece>)
      requires Valid()
      ensures pieces == OwnedBy(Cells(), playerType)
    {
      pieces := [];
      for y := 0 to 3
        invariant pieces == OwnedBy(Cells()[..9 * y], playerType)
      {
        for z := 0 to 3
          invariant pieces == OwnedBy(Cells()[..9 * y + 3 * z], playerType)
        {
          for x := 0 to 3
            invariant pieces == OwnedBy(Cells()[..9 * y + 3 * z + x], playerType)
          {
            var k := 9 * y + 3 * z + x;
            CellAt(Position(x, y, z));
            OwnedByStep(Cells(), playerType, k);
            var piece := grid[x, y, z];
            if piece != null && piece.owner == playerType {
              pieces := pieces + [piece];
            }
          }
        }
      }
      assert Cells()[..CellCount] == Cells();
    }

    /** GetAllPieces: every piece on the board in scan order. */
    method GetAllPieces() returns (pieces: seq<Piece>)
      requires Valid()
      ensures pieces == NonNull(Cells())
    {
      pieces := [];
      for y := 0 to 3
        invariant pieces == NonNull(Cells()[..9 * y])
      {
        for z := 0 to 3
          invariant pieces == NonNull(Cells()[..9 * y + 3 * z])
        {
          for x := 0 to 3
            invariant pieces == NonNull(Cells()[..9 * y + 3 * z + x])
          {
            var k := 9 * y + 3 * z + x;
            CellAt(Position(x, y, z));
            NonNullStep(Cells(), k);
            if grid[x, y, z] != null {
              pieces := pieces + [grid[x, y, z]];
            }
          }
        }
      }
      assert Cells()[..CellCount] == Cells();
    }

    /** GetPieceAt: nothing off the board, otherwise the cell's content. */
    function GetPieceAt(position: Position): (piece: Piece?)
      requires Valid()
      reads grid
      ensures !IsValid(position) ==> piece == null
      ensures IsValid(position) ==> piece == Cells()[Index(position)]
      ensures IsValid(position) ==> Occupancy()[Index(position)] == if piece == null then None else Some(piece.owner)
    {
      if !IsValid(position) then null
      else
        CellAt(position);
        grid[position.x, position.y, position.z]
    }

    /** ClearBoard: every cell emptied. */
    method ClearBoard()
      requires Valid()
      modifies grid
      ensures forall i | 0 <= i < CellCount :: Cells()[i] == null
      ensures Occupancy() == EmptyGrid()
    {
      for y := 0 to 3
        invariant forall p | IsValid(p) && Index(p) < 9 * y :: grid[p.x, p.y, p.z] == null
      {
        for z := 0 to 3
          invariant forall p | IsValid(p) && Index(p) < 9 * y + 3 * z :: grid[p.x, p.y, p.z] == null
        {
          for x := 0 to 3
            invariant forall p | IsValid(p) && Index(p) < 9 * y + 3 * z + x :: grid[p.x, p.y, p.z] == null
          {
            if grid[x, y, z] != null {
              grid[x, y, z] := null;
            }
          }
        }
      }
      forall i | 0 <= i < CellCount ensures Cells()[i] == null {
        var p := PosAt(i);
        CellAt(p);
      }
    }

    /** IsBoardFull: no cell is empty. */
    method IsBoardFull() returns (full: bool)
      requires Valid()
      ensures full <==> forall i | 0 <= i < CellCount :: Cells()[i] != null
      ensures full <==> Empties(Occupancy()) == 0
    {
      for y := 0 to 3
        invariant forall p | IsValid(p) && Index(p) < 9 * y :: grid[p.x, p.y, p.z] != null
      {
        for z := 0 to 3
          invariant forall p | IsValid(p) && Index(p) < 9 * y + 3 * z :: grid[p.x, p.y, p.z] != null
        {
          for x := 0 to 3
            invariant forall p | IsValid(p) && Index(p) < 9 * y + 3 * z + x :: grid[p.x, p.y, p.z] != null
          {
            if grid[x, y, z] == null {
              CellAt(Position(x, y, z));
              NoEmptiesMeansFull(Occupancy());
              return false;
            }
          }
        }
      }
      forall i | 0 <= i < CellCount ensures Cells()[i] != null {
        var p := PosAt(i);
        CellAt(p);
      }
      NoEmptiesMeansFull(Occupancy());
      return true;
    }

    /** StartSimulation: the snapshot becomes a copy of the live board. */
    method StartSimulation()
      requires Valid()
      modifies simulationGrid
      ensures CellsOf(simulationGrid) == Cells()
    {
      for y := 0 to 3
        invariant forall p | IsValid(p) && Index(p) < 9 * y :: simulationGrid[p.x, p.y, p.z] == grid[p.x, p.y, p.z]
      {
        for z := 0 to 3
          invariant forall p | IsValid(p) && Index(p) < 9 * y + 3 * z :: simulationGrid[p.x, p.y, p.z] == grid[p.x, p.y, p.z]
        {
          for x := 0 to 3
            invariant forall p | IsValid(p) && Index(p) < 9 * y + 3 * z + x :: simulationGrid[p.x, p.y, p.z] == grid[p.x, p.y, p.z]
          {
            simulationGrid[x, y, z] := grid[x, y, z];
          }
        }
      }
      SameCells(simulationGrid, grid);
    }

    /** EndSimulation: the live board is restored from the snapshot. */
    method EndSimulation()
      requires Valid()
      modifies grid
      ensures Cells() == CellsOf(simulationGrid)
    {
      for y := 0 to 3
        invariant forall p | IsValid(p) && Index(p) < 9 * y :: grid[p.x, p.y, p.z] == simulationGrid[p.x, p.y, p.z]
      {
        for z := 0 to 3
          invariant forall p | IsValid(p) && Index(p) < 9 * y + 3 * z :: grid[p.x, p.y, p.z] == simulationGrid[p.x, p.y, p.z]
        {
          for x := 0 to 3
            invariant forall p | IsValid(p) && Index(p) < 9 * y + 3 * z + x :: grid[p.x, p.y, p.z] == simulationGrid[p.x, p.y, p.z]
          {
            grid[x, y, z] := simulationGrid[x, y, z];
          }
        }
      }
      SameCells(grid, simulationGrid);
    }

    /**
     * SimulatePlacePiece: the same guard as PlacePiece; on success a new temporary piece of that
     * player, recording the cell, fills it.
     */
    method SimulatePlacePiece(position: Position, playerType: Player) returns (ok: bool)
      requires Valid()
      modifies grid
      ensures ok <==> CanPlace(old(Occupancy()), position)
      ensures ok ==> Occupancy() == Put(old(Occupancy()), position, Some(playerType))
      ensures ok ==> var temp := Cells()[Index(position)];
        temp != null && fresh(temp) && temp.owner == playerType && temp.position == position
      ensures ok ==> forall i | 0 <= i < CellCount && i != Index(position) :: Cells()[i] == old(Cells())[i]
      ensures !ok ==> Cells() == old(Cells())
    {
      if !IsValid(position) || !IsPositionEmpty(position) || !HasSupportBelow(position) {
        return false;
      }
      AllCells(grid);
      var tempPiece := NewTempPiece(playerType, position);
      grid[position.x, position.y, position.z] := tempPiece;
      WriteCell(old(Cells()), grid, position);
      OwnersOfUpdate(old(Cells()), position, tempPiece);
      return true;
    }

    /** UndoSimulatedMove: empties the cell; nothing happens off the board. */
    method UndoSimulatedMove(position: Position)
      requires Valid()
      modifies grid
      ensures IsValid(position) ==> Cells() == old(Cells())[Index(position) := null]
      ensures IsValid(position) ==> Occupancy() == Put(old(Occupancy()), position, None)
      ensures !IsValid(position) ==> Cells() == old(Cells())
    {
      if !IsValid(position) {
        return;
      }
      AllCells(grid);
      var piece := grid[position.x, position.y, position.z];
      if piece != null {
        grid[position.x, position.y, position.z] := null;
      }
      WriteCell(old(Cells()), grid, position);
      OwnersOfUpdate(old(Cells()), position, null);
    }

    /**
     * SimulateRemovePiece: takes the piece out of the cell and returns it; nothing happens off the
     * board or on an empty cell. Unlike RemovePiece it does not ask whether the piece is covered.
     */
    method SimulateRemovePiece(position: Position) returns (piece: Piece?)
      requires Valid()
      modifies grid
      ensures piece == null <==> !IsValid(position) || !Occupied(old(Occupancy()), position)
      ensures piece != null ==> piece == old(Cells())[Index(position)]
      ensures piece != null ==> Cells() == old(Cells())[Index(position) := null]
      ensures piece != null ==> Occupancy() == Put(old(Occupancy()), position, None)
      ensures piece == null ==> Cells() == old(Cells())
    {
      if !IsValid(position) || IsPositionEmpty(position) {
        return null;
      }
      piece := grid[position.x, position.y, position.z];
      AllCells(grid);
      grid[position.x, position.y, position.z] := null;
      WriteCell(old(Cells()), grid, position);
      OwnersOfUpdate(old(Cells()), position, null);
    }

    /** UndoSimulatedRemoval: puts the piece back into an empty cell; otherwise nothing happens. */
    method UndoSimulatedRemoval(position: Position, piece: Piece?)
      requires Valid()
      modifies grid
      ensures IsValid(position) && old(Cells())[Index(position)] == null ==>
        Cells() == old(Cells())[Index(position) := piece]
      ensures !(IsValid(position) && old(Cells())[Index(position)] == null) ==> Cells() == old(Cells())
    {
      if !IsValid(position) || !IsPositionEmpty(position) {
        return;
      }
      AllCells(grid);
      grid[position.x, position.y, position.z] := piece;
      WriteCell(old(Cells()), grid, position);
    }
  }

  lemma SameCells(a: array3<Piece?>, b: array3<Piece?>)
    requires IsCube(a) && IsCube(b)
    requires forall p | IsValid(p) :: a[p.x, p.y, p.z] == b[p.x, p.y, p.z]
    ensures CellsOf(a) == CellsOf(b)
  {
    forall i | 0 <= i < CellCount ensures CellsOf(a)[i] == CellsOf(b)[i] {
      var p := PosAt(i);
      CellOf(a, p);
      CellOf(b, p);
    }
  }

  /** The stand-in piece a simulated move puts on the board. */
  method NewTempPiece(playerType: Player, position: Position) returns (tempPiece: Piece)
    ensures fresh(tempPiece) && tempPiece.owner == playerType && tempPiece.position == position
  {
    tempPiece := new Piece(playerType);
    tempPiece.position := position;
  }

  /** Every cell of the view, at once. */
  lemma AllCells(a: array3<Piece?>)
    requires IsCube(a)
    ensures forall p | IsValid(p) :: CellsOf(a)[Index(p)] == a[p.x, p.y, p.z]
  {
    forall p | IsValid(p) ensures CellsOf(a)[Index(p)] == a[p.x, p.y, p.z] {
      CellOf(a, p);
    }
  }

  /** Writing one cell of a board array changes that entry of its scan-order view only. */
  lemma WriteCell(before: seq<Piece?>, a: array3<Piece?>, p: Position)
    requires IsCube(a) && IsValid(p) && |before| == CellCount
    requires forall q | IsValid(q) && q != p :: a[q.x, q.y, q.z] == before[Index(q)]
    ensures CellsOf(a) == before[Index(p) := a[p.x, p.y, p.z]]
  {
    forall i | 0 <= i < CellCount ensures CellsOf(a)[i] == before[Index(p) := a[p.x, p.y, p.z]][i] {
      var q := PosAt(i);
      CellOf(a, q);
      if i == Index(p) {
        IndexInjective(p, q);
      } else {
        assert a[q.x, q.y, q.z] == before[i];
      }
    }
  }
}
