/**
 * The board as a value: which player, if any, holds each of the 27 cells, listed in the
 * board's scan order. The rules, the win lines and the search are stated over this view.
 */
module Layout {
  import opened Wrappers
  import opened GridPositions
  import opened Pieces

  /** Cell i holds the owner of the piece at PosAt(i), or None when the cell is empty. */
  type Grid = g: seq<Option<Player>> | |g| == CellCount witness seq(27, _ => None)

  function EmptyGrid(): (g: Grid)
    ensures forall i | 0 <= i < CellCount :: g[i] == None
  {
    seq(27, _ => None)
  }

  predicate Occupied(g: Grid, p: Position)
    requires IsValid(p)
  {
    g[Index(p)].Some?
  }

  function Below(p: Position): Position {
    p.(y := p.y - 1)
  }

  function Above(p: Position): Position {
    p.(y := p.y + 1)
  }

  /** HasSupportBelow: the bottom layer always has support, other cells need the cell below filled. */
  predicate HasSupport(g: Grid, p: Position)
    requires IsValid(p)
  {
    p.y == 0 || Occupied(g, Below(p))
  }

  /** The guard shared by PlacePiece, SimulatePlacePiece and ValidateMove. */
  predicate CanPlace(g: Grid, p: Position) {
    IsValid(p) && !Occupied(g, p) && HasSupport(g, p)
  }

  /** Nothing sits directly on the cell: the top layer, or the cell above is empty. */
  predicate Exposed(g: Grid, p: Position)
    requires IsValid(p)
  {
    p.y >= 2 || !Occupied(g, Above(p))
  }

  /** The guard of BoardManager.RemovePiece: a piece is only taken from an exposed top. */
  predicate CanTake(g: Grid, p: Position) {
    IsValid(p) && Occupied(g, p) && Exposed(g, p)
  }

  /** The stacking invariant: every occupied cell above the bottom layer rests on a piece. */
  ghost predicate Supported(g: Grid) {
    forall p | IsValid(p) && p.y > 0 && Occupied(g, p) :: Occupied(g, Below(p))
  }

  /** The grid after cell p takes the value v. */
  function Put(g: Grid, p: Position, v: Option<Player>): (r: Grid)
    requires IsValid(p)
    ensures forall q | IsValid(q) :: r[Index(q)] == if q == p then v else g[Index(q)]
  {
    forall q | IsValid(q) ensures g[Index(p) := v][Index(q)] == if q == p then v else g[Index(q)] {
      if Index(q) == Index(p) { IndexInjective(p, q); }
    }
    g[Index(p) := v]
  }

  /** Placing where CanPlace allows keeps the stacking invariant. */
  lemma PlaceKeepsSupport(g: Grid, p: Position, who: Player)
    requires Supported(g) && CanPlace(g, p)
    ensures Supported(Put(g, p, Some(who)))
  {
    var r := Put(g, p, Some(who));
    forall q | IsValid(q) && q.y > 0 && Occupied(r, q) ensures Occupied(r, Below(q)) {
      if q != p {
        assert Occupied(g, q);
      }
    }
  }

  /** Taking an exposed top keeps the stacking invariant. */
  lemma TakeKeepsSupport(g: Grid, p: Position)
    requires Supported(g) && CanTake(g, p)
    ensures Supported(Put(g, p, None))
  {
    var r := Put(g, p, None);
    forall q | IsValid(q) && q.y > 0 && Occupied(r, q) ensures Occupied(r, Below(q)) {
      assert q != p && Occupied(g, q) && Occupied(g, Below(q));
      assert Above(Below(q)) == q;
    }
  }

  /** The number of empty cells among g[from..]. */
  function EmptiesFrom(g: Grid, from: int): (n: nat)
    requires 0 <= from <= CellCount
    ensures n <= CellCount - from
    decreases CellCount - from
  {
    if from == CellCount then 0
    else (if g[from].None? then 1 else 0) + EmptiesFrom(g, from + 1)
  }

  /** The number of empty cells; filling one lowers it by one. */
  function Empties(g: Grid): nat {
    EmptiesFrom(g, 0)
  }

  lemma {:induction false} FillFrom(g: Grid, i: int, v: Player, from: int)
    requires 0 <= from <= CellCount && 0 <= i < CellCount && g[i].None?
    ensures EmptiesFrom(g[i := Some(v)], from) == EmptiesFrom(g, from) - (if from <= i then 1 else 0)
    decreases CellCount - from
  {
    if from < CellCount {
      FillFrom(g, i, v, from + 1);
    }
  }

  lemma Fill(g: Grid, p: Position, v: Player)
    requires IsValid(p) && !Occupied(g, p)
    ensures Empties(Put(g, p, Some(v))) == Empties(g) - 1
  {
    IndexOfValid(p);
    FillFrom(g, Index(p), v, 0);
  }

  lemma {:induction false} NoEmptiesFrom(g: Grid, from: int)
    requires 0 <= from <= CellCount
    ensures EmptiesFrom(g, from) == 0 <==> forall i | from <= i < CellCount :: g[i].Some?
    decreases CellCount - from
  {
    if from < CellCount {
      NoEmptiesFrom(g, from + 1);
    }
  }

  /** A full board accepts no placement. */
  lemma FullRefuses(g: Grid, p: Position)
    requires Empties(g) == 0
    ensures !CanPlace(g, p)
  {
    if CanPlace(g, p) {
      Fill(g, p, X);
    }
  }

  /** No empty cell is counted exactly when every cell is filled. */
  lemma NoEmptiesMeansFull(g: Grid)
    ensures Empties(g) == 0 <==> forall i | 0 <= i < CellCount :: g[i].Some?
  {
    NoEmptiesFrom(g, 0);
  }
}
