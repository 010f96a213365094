/**
 * The removal cascade as a value: which pieces one pass marks as unsupported, what removing
 * them one after another does, and the board the cascade settles on.
 */
module CascadeRules {
  import opened Wrappers
  import opened GridPositions
  import opened Pieces
  import opened Layout

  /** A piece above the bottom layer with an empty cell directly below it. */
  predicate Floats(g: Grid, p: Position)
    requires IsValid(p)
  {
    p.y > 0 && Occupied(g, p) && !Occupied(g, Below(p))
  }

  /** The floating cells among the first n in scan order, in scan order. */
  function MarkedUpTo(g: Grid, n: int): (ps: seq<Position>)
    requires 0 <= n <= CellCount
    ensures forall q | q in ps :: IsValid(q) && Index(q) < n && Floats(g, q)
    ensures forall i, j | 0 <= i < j < |ps| :: Index(ps[i]) < Index(ps[j])
  {
    if n == 0 then []
    else MarkedUpTo(g, n - 1) + (if Floats(g, PosAt(n - 1)) then [PosAt(n - 1)] else [])
  }

  /** The cells one pass of the cascade marks for removal. */
  function Marked(g: Grid): seq<Position> {
    MarkedUpTo(g, CellCount)
  }

  /** Every floating cell among the first n is marked. */
  lemma {:induction false} MarkedUpToComplete(g: Grid, n: int)
    requires 0 <= n <= CellCount
    ensures forall q | IsValid(q) && Index(q) < n && Floats(g, q) :: q in MarkedUpTo(g, n)
  {
    if n > 0 {
      MarkedUpToComplete(g, n - 1);
      forall q | IsValid(q) && Index(q) < n && Floats(g, q) ensures q in MarkedUpTo(g, n) {
        if Index(q) == n - 1 {
          IndexOfValid(q);
        }
      }
    }
  }

  /** A pass marks exactly the floating pieces. */
  lemma MarkedIsFloating(g: Grid)
    ensures forall q :: q in Marked(g) <==> IsValid(q) && Floats(g, q)
  {
    MarkedUpToComplete(g, CellCount);
    forall q | IsValid(q) ensures Index(q) < CellCount {
      IndexOfValid(q);
    }
  }

  /** A pass marks nothing exactly when no piece floats. */
  lemma NothingMarkedIffSupported(g: Grid)
    ensures Marked(g) == [] <==> Supported(g)
  {
    MarkedIsFloating(g);
    if Marked(g) != [] {
      assert Marked(g)[0] in Marked(g);
    }
  }

  /** One removal attempt as BoardManager.RemovePiece makes it: only an exposed piece goes. */
  function TryTake(g: Grid, p: Position): (r: Grid)
    ensures CanTake(g, p) ==> r == Put(g, p, None)
    ensures !CanTake(g, p) ==> r == g
  {
    if CanTake(g, p) then Put(g, p, None) else g
  }

  /** The removal attempts of a pass, one after another in the order given. */
  function RemoveEach(g: Grid, ps: seq<Position>): Grid {
    if ps == [] then g else TryTake(RemoveEach(g, ps[..|ps| - 1]), ps[|ps| - 1])
  }

  /** One pass of the cascade: the board after its removals, and whether it marked anything. */
  function Pass(g: Grid): (Grid, bool) {
    (RemoveEach(g, Marked(g)), Marked(g) != [])
  }

  /** The board with every floating piece taken away. */
  function Collapse(g: Grid): (r: Grid)
    ensures forall p | IsValid(p) :: r[Index(p)] == if Floats(g, p) then None else g[Index(p)]
  {
    forall p | IsValid(p) ensures Index(p) < CellCount && PosAt(Index(p)) == p {
      IndexOfValid(p);
    }
    seq(27, i requires 0 <= i < 27 => if Floats(g, PosAt(i)) then None else g[i])
  }

  /**
   * The boards on which the cascade ends: every floating piece has nothing on top of it.
   * The one shape that fails is a column whose bottom cell is empty under two pieces.
   */
  ghost predicate CascadeSafe(g: Grid) {
    forall p | IsValid(p) && Floats(g, p) :: Exposed(g, p)
  }

  /** A board where no piece floats is safe. */
  lemma SupportedIsSafe(g: Grid)
    requires Supported(g)
    ensures CascadeSafe(g) && Collapse(g) == g
  {
    forall i | 0 <= i < CellCount ensures Collapse(g)[i] == g[i] {
      var p := PosAt(i);
      assert !Floats(g, p);
    }
  }

  /** After a legal removal from a board where nothing floats, the cascade has nothing to take. */
  lemma TakeLeavesNothingToCollapse(g: Grid, p: Position)
    requires Supported(g) && CanTake(g, p)
    ensures Supported(Put(g, p, None)) && CascadeSafe(Put(g, p, None))
    ensures Collapse(Put(g, p, None)) == Put(g, p, None)
  {
    TakeKeepsSupport(g, p);
    SupportedIsSafe(Put(g, p, None));
  }

  /** The board with the given cells emptied. */
  function Cleared(g: Grid, ps: seq<Position>): (r: Grid)
    ensures forall p | IsValid(p) :: r[Index(p)] == if p in ps then None else g[Index(p)]
  {
    forall p | IsValid(p) ensures Index(p) < CellCount && PosAt(Index(p)) == p {
      IndexOfValid(p);
    }
    seq(27, i requires 0 <= i < 27 => if PosAt(i) in ps then None else g[i])
  }

  /**
   * Taking distinct cells that are occupied and have nothing above them, one after another,
   * empties exactly those cells: no attempt is refused.
   */
  lemma {:induction false} RemoveEachClears(g: Grid, ps: seq<Position>)
    requires forall i | 0 <= i < |ps| :: IsValid(ps[i]) && Occupied(g, ps[i]) && Exposed(g, ps[i])
    requires forall i, j | 0 <= i < j < |ps| :: ps[i] != ps[j]
    ensures RemoveEach(g, ps) == Cleared(g, ps)
  {
    if ps != [] {
      var init, p := ps[..|ps| - 1], ps[|ps| - 1];
      RemoveEachClears(g, init);
      var h := Cleared(g, init);
      assert p !in init;
      assert CanTake(h, p) by {
        if p.y < 2 {
          assert IsValid(Above(p));
        }
      }
      forall i | 0 <= i < CellCount ensures Put(h, p, None)[i] == Cleared(g, ps)[i] {
        var q := PosAt(i);
        assert q in ps <==> q in init || q == p;
      }
    }
  }

  /** On a safe board one pass takes away exactly the floating pieces. */
  lemma PassIsCollapse(g: Grid)
    requires CascadeSafe(g)
    ensures Pass(g).0 == Collapse(g)
  {
    var ps := Marked(g);
    MarkedIsFloating(g);
    forall i, j | 0 <= i < j < |ps| ensures ps[i] != ps[j] {
      assert Index(ps[i]) < Index(ps[j]);
    }
    forall i | 0 <= i < |ps| ensures IsValid(ps[i]) && Occupied(g, ps[i]) && Exposed(g, ps[i]) {
      assert ps[i] in ps;
    }
    RemoveEachClears(g, ps);
    forall i | 0 <= i < CellCount ensures Cleared(g, ps)[i] == Collapse(g)[i] {
      var q := PosAt(i);
      assert q in ps <==> Floats(g, q);
    }
  }

  /** On a safe board the collapsed board has no floating piece, so the next pass marks nothing. */
  lemma CollapseSupported(g: Grid)
    requires CascadeSafe(g)
    ensures Supported(Collapse(g))
  {
    var r := Collapse(g);
    forall p | IsValid(p) && p.y > 0 && Occupied(r, p) ensures Occupied(r, Below(p)) {
      var b := Below(p);
      assert Occupied(g, p) && !Floats(g, p);
      assert Above(b) == p;
    }
  }

  /** Taking an exposed piece from a safe board leaves it safe. */
  lemma TakeKeepsSafe(g: Grid, p: Position)
    requires CascadeSafe(g) && CanTake(g, p)
    ensures CascadeSafe(Put(g, p, None))
  {
    var r := Put(g, p, None);
    forall q | IsValid(q) && Floats(r, q) ensures Exposed(r, q) {
      if q.y < 2 {
        var a := Above(q);
        if Below(q) == p {
          assert q == Above(p);
        } else {
          assert Floats(g, q);
        }
      }
    }
  }

  /** Attempts that are all refused leave the board as it was. */
  lemma {:induction false} RemoveEachRefused(g: Grid, ps: seq<Position>)
    requires forall q | q in ps :: !CanTake(g, q)
    ensures RemoveEach(g, ps) == g
  {
    if ps != [] {
      RemoveEachRefused(g, ps[..|ps| - 1]);
      assert ps[|ps| - 1] in ps;
    }
  }

  /**
   * The boards the cascade never leaves: the only pieces are two stacked on the empty bottom
   * cell c of a column. The lower piece is marked, but the one on top of it makes every
   * removal attempt fail, so each pass reports a removal and leaves the board as it was.
   */
  lemma StuckColumnRepeats(g: Grid, c: Position)
    requires IsValid(c) && c.y == 0
    requires forall p | IsValid(p) :: Occupied(g, p) <==> p == Above(c) || p == Above(Above(c))
    ensures !CascadeSafe(g)
    ensures Pass(g) == (g, true)
  {
    var a, b := Above(c), Above(Above(c));
    assert Below(a) == c && Above(a) == b;
    assert Occupied(g, a) && Occupied(g, b) && !Occupied(g, c);
    MarkedIsFloating(g);
    assert a in Marked(g);
    RemoveEachRefused(g, Marked(g));
  }
}
