/**
 * The input layer (InputHandler): which cell a click names, how a cell's name is read back into
 * its coordinates, and the gating by game state and move checks before a click reaches the game.
 * The mouse, the camera ray and the physics query are abstracted to what they deliver: the cell
 * object hit on the cell layer, or the piece hit on the piece layer.
 */
module Input {
  import opened Wrappers
  import opened Decimal
  import opened GridPositions
  import opened Pieces
  import opened Layout
  import opened Boards
  import opened Turns
  import opened Validation
  import opened Game
  import opened WinLines

  /** string.Replace(pat, ""): every occurrence of pat, found left to right without overlap, is deleted. */
  function RemoveAll(s: string, pat: string): (r: string)
    requires pat != []
    ensures |r| <= |s|
    decreases |s|
  {
    if |s| < |pat| then s
    else if s[..|pat|] == pat then RemoveAll(s[|pat|..], pat)
    else [s[0]] + RemoveAll(s[1..], pat)
  }

  /** Deleting only removes characters: whatever remains was already there. */
  lemma {:induction false} RemoveAllKeeps(s: string, pat: string)
    requires pat != []
    ensures forall i | 0 <= i < |RemoveAll(s, pat)| :: RemoveAll(s, pat)[i] in s
    decreases |s|
  {
    if |s| >= |pat| {
      if s[..|pat|] == pat {
        RemoveAllKeeps(s[|pat|..], pat);
        forall i | 0 <= i < |RemoveAll(s, pat)| ensures RemoveAll(s, pat)[i] in s {
          assert RemoveAll(s, pat)[i] in s[|pat|..];
        }
      } else {
        RemoveAllKeeps(s[1..], pat);
        forall i | 0 <= i < |RemoveAll(s, pat)| ensures RemoveAll(s, pat)[i] in s {
          if i > 0 {
            assert RemoveAll(s, pat)[i] == RemoveAll(s[1..], pat)[i - 1];
            assert RemoveAll(s, pat)[i] in s[1..];
          }
        }
      }
    }
  }

  /** Text that lacks the first character of pat has nothing to delete. */
  lemma {:induction false} RemoveAllFree(t: string, pat: string)
    requires pat != [] && pat[0] !in t
    ensures RemoveAll(t, pat) == t
    decreases |t|
  {
    if |t| >= |pat| {
      assert t[..|pat|][0] != pat[0];
      RemoveAllFree(t[1..], pat);
      assert [t[0]] + t[1..] == t;
    }
  }

  /** A leading text without the first character of pat passes through untouched. */
  lemma {:induction false} RemoveAllSkip(a: string, t: string, pat: string)
    requires pat != [] && pat[0] !in a
    ensures RemoveAll(a + t, pat) == a + RemoveAll(t, pat)
    decreases |a|
  {
    if a != [] {
      var s := a + t;
      if |s| < |pat| {
        assert RemoveAll(t, pat) == t;
      } else {
        assert s[..|pat|][0] == a[0];
        assert s[1..] == a[1..] + t;
        RemoveAllSkip(a[1..], t, pat);
        assert [a[0]] + a[1..] == a;
      }
    } else {
      assert a + t == t;
    }
  }

  /** string.Split(sep): the pieces between separators, empty pieces included, in order. */
  function Split(s: string, sep: char): (parts: seq<string>)
    ensures |parts| > 0
    decreases |s|
  {
    if s == [] then [""]
    else
      var rest := Split(s[1..], sep);
      if s[0] == sep then [""] + rest else [[s[0]] + rest[0]] + rest[1..]
  }

  /** The pieces glued back together with the separator between them. */
  function Join(parts: seq<string>, sep: char): string
    requires |parts| > 0
    decreases |parts|
  {
    if |parts| == 1 then parts[0] else parts[0] + [sep] + Join(parts[1..], sep)
  }

  /** No piece of a split holds the separator. */
  lemma {:induction false} SplitPartsFree(s: string, sep: char)
    ensures forall i | 0 <= i < |Split(s, sep)| :: sep !in Split(s, sep)[i]
    decreases |s|
  {
    if s != [] {
      SplitPartsFree(s[1..], sep);
      var rest := Split(s[1..], sep);
      if s[0] != sep {
        assert sep !in rest[0];
        forall i | 0 < i < |Split(s, sep)| ensures sep !in Split(s, sep)[i] {
          assert Split(s, sep)[i] == rest[i];
        }
      } else {
        forall i | 0 < i < |Split(s, sep)| ensures sep !in Split(s, sep)[i] {
          assert Split(s, sep)[i] == rest[i - 1];
        }
      }
    }
  }

  /** Joining the pieces of a split gives back the text. */
  lemma {:induction false} JoinSplit(s: string, sep: char)
    ensures Join(Split(s, sep), sep) == s
    decreases |s|
  {
    if s != [] {
      JoinSplit(s[1..], sep);
      var rest := Split(s[1..], sep);
      if s[0] == sep {
        assert ([""] + rest)[1..] == rest;
      } else {
        var parts := Split(s, sep);
        if |rest| == 1 {
          assert parts == [[s[0]] + rest[0]];
        } else {
          assert parts[1..] == rest[1..];
          assert Join(rest, sep) == rest[0] + [sep] + Join(rest[1..], sep);
        }
      }
    }
  }

  /** Text without the separator splits into itself alone. */
  lemma {:induction false} SplitFree(a: string, sep: char)
    requires sep !in a
    ensures Split(a, sep) == [a]
    decreases |a|
  {
    if a != [] {
      SplitFree(a[1..], sep);
      assert [a[0]] + a[1..] == a;
    }
  }

  /** A first piece without the separator, then the separator, then the rest. */
  lemma {:induction false} SplitFirst(a: string, t: string, sep: char)
    requires sep !in a
    ensures Split(a + [sep] + t, sep) == [a] + Split(t, sep)
    decreases |a|
  {
    var s := a + [sep] + t;
    if a == [] {
      assert s[1..] == t;
    } else {
      assert s[1..] == a[1..] + [sep] + t;
      SplitFirst(a[1..], t, sep);
      assert [a[0]] + a[1..] == a;
    }
  }

  /** Splitting the join of separator-free pieces gives back the pieces. */
  lemma {:induction false} SplitJoin(parts: seq<string>, sep: char)
    requires |parts| > 0 && forall i | 0 <= i < |parts| :: sep !in parts[i]
    ensures Split(Join(parts, sep), sep) == parts
    decreases |parts|
  {
    if |parts| == 1 {
      SplitFree(parts[0], sep);
    } else {
      SplitJoin(parts[1..], sep);
      SplitFirst(parts[0], Join(parts[1..], sep), sep);
      assert [parts[0]] + parts[1..] == parts;
    }
  }

  /** The name BoardManager gives the cell object at (x, y, z): Cell(x,y,z). */
  function CellName(x: int, y: int, z: int): string {
    "Cell(" + IntToString(x) + "," + IntToString(y) + "," + IntToString(z) + ")"
  }

  /**
   * ParseCellName: delete "Cell(" and ")", split on ','. Three pieces are read with int.Parse,
   * which throws on a piece that is not a 32-bit number (the Failure case); any other number of
   * pieces gives the fallback (0, 0, 0).
   */
  function ParseCellName(cellName: string): (r: Result<Position, ParseError>)
    ensures r.Success? && r.value != Position(0, 0, 0) ==>
      InInt32(r.value.x) && InInt32(r.value.y) && InInt32(r.value.z)
  {
    var parts := Split(RemoveAll(RemoveAll(cellName, "Cell("), ")"), ',');
    if |parts| == 3 then
      match (ParseInt(parts[0]), ParseInt(parts[1]), ParseInt(parts[2]))
      case (Success(x), Success(y), Success(z)) => Success(Position(x, y, z))
      case (Failure(e), _, _) => Failure(e)
      case (_, Failure(e), _) => Failure(e)
      case (_, _, Failure(e)) => Failure(e)
    else Success(Position(0, 0, 0))
  }

  /** The characters int.ToString writes: a minus sign and decimal digits. */
  lemma IntToStringChars(n: int)
    ensures forall i | 0 <= i < |IntToString(n)| :: IntToString(n)[i] == '-' || IsDigit(IntToString(n)[i])
  {
    if n >= 0 {
      assert IsDigit(NatToString(n)[0]);
    }
  }

  /** Three separator-free pieces joined by the separator split back into those three. */
  lemma SplitThree(a: string, b: string, c: string, sep: char)
    requires sep !in a && sep !in b && sep !in c
    ensures Split(a + [sep] + b + [sep] + c, sep) == [a, b, c]
  {
    assert [a, b, c][1..] == [b, c];
    assert [b, c][1..] == [c];
    assert Join([b, c], sep) == b + [sep] + c;
    assert Join([a, b, c], sep) == a + [sep] + (b + [sep] + c);
    assert a + [sep] + (b + [sep] + c) == a + [sep] + b + [sep] + c;
    SplitJoin([a, b, c], sep);
  }

  /** Deleting "Cell(" and then ")" from Cell(u) leaves u, when u holds neither 'C' nor ')'. */
  lemma StripCellName(u: string)
    requires 'C' !in u && ')' !in u
    ensures RemoveAll(RemoveAll("Cell(" + u + ")", "Cell("), ")") == u
  {
    var name := "Cell(" + u + ")";
    assert name == "Cell(" + (u + ")");
    assert name[..5] == "Cell(" && name[5..] == u + ")";
    assert 'C' !in u + ")";
    RemoveAllFree(u + ")", "Cell(");
    RemoveAllSkip(u, ")", ")");
    assert RemoveAll(")", ")") == RemoveAll("", ")");
    assert u + "" == u;
  }

  /** Deleting the wrapper from a cell's name and splitting on ',' gives the three numbers' texts. */
  lemma CellNameParts(x: int, y: int, z: int)
    ensures Split(RemoveAll(RemoveAll(CellName(x, y, z), "Cell("), ")"), ',')
      == [IntToString(x), IntToString(y), IntToString(z)]
  {
    var sx, sy, sz := IntToString(x), IntToString(y), IntToString(z);
    IntToStringChars(x);
    IntToStringChars(y);
    IntToStringChars(z);
    assert ',' !in sx && ',' !in sy && ',' !in sz;
    var u := sx + "," + sy + "," + sz;
    assert 'C' !in u && ')' !in u by {
      forall i | 0 <= i < |u| ensures u[i] != 'C' && u[i] != ')' {
        if i < |sx| {
          assert u[i] == sx[i];
        } else if i < |sx| + 1 + |sy| {
          if i > |sx| {
            assert u[i] == sy[i - |sx| - 1];
          }
        } else if i > |sx| + 1 + |sy| {
          assert u[i] == sz[i - |sx| - |sy| - 2];
        }
      }
    }
    assert CellName(x, y, z) == "Cell(" + u + ")";
    StripCellName(u);
    SplitThree(sx, sy, sz, ',');
  }

  /** Reading a cell's name gives back the coordinates it was named after, for every 32-bit triple. */
  lemma ParseCellNameInverts(x: int, y: int, z: int)
    requires InInt32(x) && InInt32(y) && InInt32(z)
    ensures ParseCellName(CellName(x, y, z)) == Success(Position(x, y, z))
  {
    CellNameParts(x, y, z);
    ParseIntToString(x);
    ParseIntToString(y);
    ParseIntToString(z);
  }

  /** A name without any comma, such as that of an object which is not a cell, reads as (0, 0, 0). */
  lemma NoCommaIsOrigin(cellName: string)
    requires ',' !in cellName
    ensures ParseCellName(cellName) == Success(Position(0, 0, 0))
  {
    var t := RemoveAll(cellName, "Cell(");
    RemoveAllKeeps(cellName, "Cell(");
    RemoveAllKeeps(t, ")");
    SplitFree(RemoveAll(t, ")"), ',');
  }

  /** A cell name whose first piece is not a number makes int.Parse throw. */
  lemma NonNumericFails(sy: string, sz: string)
    requires ',' !in sy && ',' !in sz && ')' !in sy && ')' !in sz && 'C' !in sy && 'C' !in sz
    ensures ParseCellName("Cell(a," + sy + "," + sz + ")") == Failure(FormatError)
  {
    var name := "Cell(a," + sy + "," + sz + ")";
    var u := "a" + "," + sy + "," + sz;
    assert name == "Cell(" + u + ")";
    StripCellName(u);
    SplitThree("a", sy, sz, ',');
    assert "a" + [','] + sy + [','] + sz == u;
    assert Split(RemoveAll(RemoveAll(name, "Cell("), ")"), ',') == ["a", sy, sz];
    ParseRejectsLetter('a');
    assert "a" == ['a'];
  }

  /** What the ray hit on the cell layer: a cell object with its GridCell component, or one without. */
  datatype CellHit = WithGridCell(position: Position) | NamedOnly(name: string)

  /**
   * The cell a placement click names: the GridCell's position when the component is there,
   * otherwise the parsed name; None when parsing throws (no placement is attempted).
   */
  function CellTarget(hit: CellHit): (t: Option<Position>)
    ensures hit.WithGridCell? ==> t == Some(hit.position)
    ensures hit.NamedOnly? ==> (t.None? <==> ParseCellName(hit.name).Failure?)
  {
    match hit
    case WithGridCell(p) => Some(p)
    case NamedOnly(name) =>
      match ParseCellName(name)
      case Success(p) => Some(p)
      case Failure(_) => None
  }

  /** For the cells BoardManager creates, the component and the name lead to the same cell. */
  lemma CellTargetAgrees(x: int, y: int, z: int)
    requires IsValid(Position(x, y, z))
    ensures CellTarget(NamedOnly(CellName(x, y, z))) == CellTarget(WithGridCell(Position(x, y, z)))
  {
    ParseCellNameInverts(x, y, z);
  }

  class InputHandler {
    const game: GameManager
    const validator: MoveValidator

    constructor (game: GameManager, validator: MoveValidator)
      ensures this.game == game && this.validator == validator
    {
      this.game := game;
      this.validator := validator;
    }

    /** The serialized references agree: the validator looks at the game's own board and turns. */
    ghost predicate Wired()
      reads this, validator, game, game.board, game.checker, game.turns, game.board.grid,
        if game.board.Valid() then game.board.PieceSet() else {}
    {
      game.Valid() && validator.board == game.board && validator.turns == game.turns
    }

    /**
     * HandlePlacementInput, for a frame whose click hit the cell layer (None: no click or no hit).
     * The game places a piece exactly when the named cell passes ValidateMove for the player
     * to move, and the placement then settles as HandlePiecePlacement prescribes; otherwise
     * nothing changes, not even the turn queues.
     */
    method HandlePlacementInput(cell: Option<CellHit>)
      requires Wired()
      modifies game, game.board.grid, game.turns
      ensures Wired()
      ensures var t := if cell.Some? then CellTarget(cell.value) else None;
        var g := old(game.board.Occupancy());
        var who := old(game.turns.currentPlayer);
        if t.Some? && CanPlace(g, t.value) && old(game.currentState) == Playing then
          game.board.Occupancy() == Put(g, t.value, Some(who))
          && game.QueuedOne(who, old(game.turns.History(who)), old(game.turns.History(Opponent(who))))
          && game.PlacementSettled(game.board.Occupancy(), t.value, who, old(game.turns.moveCount))
        else
          unchanged(game.board.grid) && unchanged(game.turns) && game.currentState == old(game.currentState)
    {
      if cell.Some? {
        var target := CellTarget(cell.value);
        if target.Some? {
          if validator.ValidateMove(target.value, game.turns.currentPlayer) {
            game.HandlePiecePlacement(target.value);
          }
        }
      }
    }

    /**
     * HandleRemovalInput, for a frame whose click hit a piece (null: no click, no hit, or no
     * GamePiece component). The game removes it exactly when the piece's recorded cell passes
     * ValidateRemoval for the player to move; otherwise nothing changes.
     */
    method HandleRemovalInput(piece: Piece?)
      requires Wired()
      modifies game, game.board.grid
      ensures Wired()
      ensures unchanged(game.turns)
      ensures var g := old(game.board.Occupancy());
        if piece != null && CanTake(g, piece.position) && Holds(g, piece.position, game.turns.currentPlayer)
          && old(game.currentState) == RemovingPiece then
          game.board.Occupancy() == Put(g, piece.position, None) && game.RemovalSettled(game.board.Occupancy())
        else
          unchanged(game.board.grid) && game.currentState == old(game.currentState)
    {
      if piece != null {
        if validator.ValidateRemoval(piece.position, game.turns.currentPlayer) {
          game.HandlePieceRemoval(piece.position);
        }
      }
    }

    /**
     * Update, for one frame: a click is routed to placement while playing and to removal while
     * a piece is to be removed; in the menu and after the game is over it does nothing.
     */
    method Update(cell: Option<CellHit>, piece: Piece?)
      requires Wired()
      modifies game, game.board.grid, game.turns
      ensures Wired()
      ensures old(game.currentState) != Playing && old(game.currentState) != RemovingPiece ==>
        unchanged(game, game.board.grid, game.turns)
      ensures old(game.currentState) == Playing ==>
        var t := if cell.Some? then CellTarget(cell.value) else None;
        var g := old(game.board.Occupancy());
        var who := old(game.turns.currentPlayer);
        if t.Some? && CanPlace(g, t.value) then
          game.board.Occupancy() == Put(g, t.value, Some(who))
          && game.QueuedOne(who, old(game.turns.History(who)), old(game.turns.History(Opponent(who))))
          && game.PlacementSettled(game.board.Occupancy(), t.value, who, old(game.turns.moveCount))
        else
          unchanged(game.board.grid) && unchanged(game.turns) && game.currentState == Playing
      ensures old(game.currentState) == RemovingPiece ==>
        var g := old(game.board.Occupancy());
        unchanged(game.turns)
        && if piece != null && CanTake(g, piece.position) && Holds(g, piece.position, old(game.turns.currentPlayer)) then
          game.board.Occupancy() == Put(g, piece.position, None) && game.RemovalSettled(game.board.Occupancy())
        else
          unchanged(game.board.grid) && game.currentState == RemovingPiece
    {
      match game.currentState
      case Playing =>
        HandlePlacementInput(cell);
      case RemovingPiece =>
        HandleRemovalInput(piece);
      case _ =>
    }
  }
}
