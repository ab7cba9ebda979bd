/** The game engine of `src/Game.js`: a board and an append-only move history,
    with the user's move, the computer's move (block a row the user is about to
    complete, otherwise a random free cell), win detection and the status
    report. Each operation returns the next state instead of mutating in place;
    a `Failure` is the exception the source throws before writing anything. */
module GameEngine {
  import opened Wrappers
  import opened Board

  /** `USER_NAME` and `COMPUTER_NAME`, the names `isWinner` and `checkGame` use. */
  const UserName: string := "user"
  const ComputerName: string := "computer"

  /** A history entry `{turn, x, y}`. */
  datatype Move = Move(turn: Player, x: nat, y: nat)

  /** The state of one `Game` instance. */
  datatype Game = Game(board: Grid, history: seq<Move>)

  /** The exceptions the engine throws. The last two are the internal errors of
      `_getCoordinatesToPreventUserWin`, which the blocking rule never reaches. */
  datatype Error = CellTaken | NoCellsAvailable | NoThreatRow | NoFreeCellInThreatRow

  /** The four outcomes `checkGame` reports. */
  datatype Status = UserWon | ComputerWon | Draw | Continue

  predicate Valid(g: Game) {
    IsGrid(g.board)
  }

  /** The name a history entry records for its player. */
  function TurnName(p: Player): (n: string)
    ensures n == UserName <==> p == User
    ensures SymbolFor(n) == Symbol(p)
  {
    match p
    case User => UserName
    case Computer => ComputerName
  }

  /** The constructor: the supplied board if there is one, otherwise a fresh
      empty board; the history always starts empty. */
  function NewGame(board: Option<Grid>): (g: Game)
    requires board.Some? ==> IsGrid(board.value)
    ensures Valid(g) && g.history == []
    ensures board.Some? ==> g.board == board.value
    ensures board.None? ==> forall i, j :: 0 <= i < Size && 0 <= j < Size ==> g.board[i][j] == Empty
  {
    match board
    case Some(b) => Game(b, [])
    case None => Game(EmptyGrid, [])
  }

  /** `clear`: back to the empty board and the empty history, whatever came before. */
  function Clear(g: Game): (r: Game)
    ensures r == NewGame(None)
    ensures FreeCount(r.board) == Size * Size
  {
    Game(EmptyGrid, [])
  }

  /** `getSize`: the fixed dimension, which is the number of rows and of cells per row. */
  function GetSize(g: Game): (n: nat)
    requires Valid(g)
    ensures n == |g.board|
    ensures forall i :: 0 <= i < |g.board| ==> |g.board[i]| == n
  {
    Size
  }

  /** `_updateHistory` then `_updateBoard`: record the move, write the symbol. */
  function Place(g: Game, x: nat, y: nat, p: Player): (r: Game)
    requires Valid(g) && InRange(x, y)
    ensures Valid(r)
    ensures Written(g.board, r.board, x, y, Symbol(p))
    ensures r.history == g.history + [Move(p, x, y)]
  {
    Game(UpdateBoard(g.board, x, y, Symbol(p)), g.history + [Move(p, x, y)])
  }

  /** `acceptUserMove(x, y)`: refuses an occupied cell; otherwise records a
      user move and writes the user's symbol. There is no symbol argument:
      it is always the user's move. */
  function AcceptUserMove(g: Game, x: nat, y: nat): (r: Result<Game, Error>)
    requires Valid(g) && InRange(x, y)
    ensures r.Failure? <==> g.board[x][y] != Empty
    ensures r.Failure? ==> r.error == CellTaken
    ensures r.Success? ==> Valid(r.value)
    ensures r.Success? ==> Written(g.board, r.value.board, x, y, UserMark)
    ensures r.Success? ==> r.value.history == g.history + [Move(User, x, y)]
  {
    if !IsFree(g.board, x, y) then Failure(CellTaken)
    else Success(Place(g, x, y, User))
  }

  /** The three-argument move the layout builder asks for: the same occupancy
      check, but the move is recorded and written for the player `p`. The
      source's `acceptUserMove` has no such parameter; this is the intended
      operation, used by the corrected builder. */
  function AcceptMove(g: Game, x: nat, y: nat, p: Player): (r: Result<Game, Error>)
    requires Valid(g) && InRange(x, y)
    ensures r.Failure? <==> g.board[x][y] != Empty
    ensures r.Failure? ==> r.error == CellTaken
    ensures r.Success? ==> Valid(r.value)
    ensures r.Success? ==> Written(g.board, r.value.board, x, y, Symbol(p))
    ensures r.Success? ==> r.value.history == g.history + [Move(p, x, y)]
  {
    if !IsFree(g.board, x, y) then Failure(CellTaken)
    else Success(Place(g, x, y, p))
  }

  /** The source's move is the user instance of the three-argument move. */
  lemma AcceptUserMoveIsUserCase(g: Game, x: nat, y: nat)
    requires Valid(g) && InRange(x, y)
    ensures AcceptUserMove(g, x, y) == AcceptMove(g, x, y, User)
  {
  }

  // ---------------------------------------------------------------------------
  // The blocking rule

  /** `_callbackRowWithTwoUserMovesAndWithFreeCell`: two user symbols and one
      empty cell. */
  predicate IsThreatRow(row: seq<Cell>): (threat: bool)
    ensures threat <==> multiset(row)[UserMark] == 2 && multiset(row)[Empty] == 1
    ensures threat && |row| == Size ==> multiset(row)[ComputerMark] == 0
  {
    var threat := Count(row, UserMark) == 2 && Count(row, Empty) == 1;
    assert threat && |row| == Size ==> multiset(row)[ComputerMark] == 0 by {
      if threat && |row| == Size {
        assert |multiset(row)| == 3;
        assert multiset(row) == multiset(row)[UserMark := 0][Empty := 0] + multiset{UserMark, UserMark, Empty};
      }
    }
    threat
  }

  /** `_checkIsUserWillWinNextMove`: some ROW is a threat row; columns and
      diagonals are not inspected. */
  predicate UserWillWinNextMove(b: Grid): (threat: bool)
    ensures threat <==> FindIndex(b, IsThreatRow).Some?
  {
    exists i :: 0 <= i < |b| && IsThreatRow(b[i])
  }

  /** `Array.prototype.findIndex`: the first position whose element satisfies
      `p`, or `None` (the source's `-1`). */
  function FindIndex<T>(s: seq<T>, p: T -> bool): (r: Option<nat>)
    ensures r.Some? ==> r.value < |s| && p(s[r.value])
    ensures r.Some? ==> forall k :: 0 <= k < r.value ==> !p(s[k])
    ensures r.None? <==> forall k :: 0 <= k < |s| ==> !p(s[k])
  {
    if |s| == 0 then None
    else if p(s[0]) then Some(0)
    else match FindIndex(s[1..], p)
      case None => None
      case Some(k) => Some(k + 1)
  }

  /** The cell the blocking rule is meant to pick, stated without search: the
      empty cell of the topmost threat row, leftmost if there were several. */
  predicate IsBlockingCell(b: Grid, x: int, y: int)
    requires IsGrid(b)
  {
    && InRange(x, y)
    && IsThreatRow(b[x])
    && b[x][y] == Empty
    && (forall i :: 0 <= i < x ==> !IsThreatRow(b[i]))
    && (forall j :: 0 <= j < y ==> b[x][j] != Empty)
  }

  /** `_getCoordinatesToPreventUserWin`: the first threat row, then its first
      empty cell; the two internal errors are thrown when either search fails. */
  function CoordinatesToPreventUserWin(b: Grid): (r: Result<(nat, nat), Error>)
    requires IsGrid(b)
    ensures r.Success? <==> UserWillWinNextMove(b)
    ensures r.Success? ==> IsBlockingCell(b, r.value.0, r.value.1)
    ensures r.Failure? ==> r.error == NoThreatRow
  {
    match FindIndex(b, IsThreatRow)
    case None => Failure(NoThreatRow)
    case Some(x) =>
      assert Empty in multiset(b[x]);
      match FindIndex(b[x], (c: Cell) => c == Empty)
      case None => Failure(NoFreeCellInThreatRow)
      case Some(y) => Success((x, y))
  }

  /** At most one cell fits the description of the blocking cell. */
  lemma BlockingCellUnique(b: Grid, x: int, y: int, x': int, y': int)
    requires IsGrid(b)
    requires IsBlockingCell(b, x, y) && IsBlockingCell(b, x', y')
    ensures x == x' && y == y'
  {
  }

  // ---------------------------------------------------------------------------
  // The computer's move

  /** `g'` is `g` after one computer move into a cell that was free: the
      computer's symbol written there, nothing else on the board changed, and
      exactly one computer entry with the same coordinates appended. */
  predicate ComputerMoved(g: Game, g': Game)
    requires Valid(g)
  {
    && |g'.history| == |g.history| + 1
    && g'.history[..|g.history|] == g.history
    && var m := g'.history[|g.history|];
    && m.turn == Computer
    && InRange(m.x, m.y)
    && g.board[m.x][m.y] == Empty
    && Written(g.board, g'.board, m.x, m.y, ComputerMark)
  }

  /** `createComputerMove` with its random source made explicit: `random` is
      the pair `_getFreeRandomCoordinates` returns, a free cell whenever one
      exists. On a full board it throws; if some row threatens a user win it
      blocks there, otherwise it plays `random`. */
  function CreateComputerMoveWith(g: Game, random: (nat, nat)): (r: Result<Game, Error>)
    requires Valid(g) && InRange(random.0, random.1)
    requires !NoFreeCell(g.board) ==> IsFree(g.board, random.0, random.1)
    ensures r.Failure? <==> NoFreeCell(g.board)
    ensures r.Failure? ==> r.error == NoCellsAvailable
    ensures r.Success? ==> Valid(r.value) && ComputerMoved(g, r.value)
    ensures r.Success? ==> FreeCount(r.value.board) == FreeCount(g.board) - 1
    ensures r.Success? && UserWillWinNextMove(g.board) ==>
              var m := r.value.history[|g.history|]; IsBlockingCell(g.board, m.x, m.y)
    ensures r.Success? && !UserWillWinNextMove(g.board) ==>
              var m := r.value.history[|g.history|]; m.x == random.0 && m.y == random.1
  {
    if FreeCount(g.board) == 0 then Failure(NoCellsAvailable)
    else
      var xy := if UserWillWinNextMove(g.board) then CoordinatesToPreventUserWin(g.board).value
                else random;
      PlaceIsComputerMove(g, xy.0, xy.1);
      Success(Place(g, xy.0, xy.1, Computer))
  }

  /** Writing the computer's symbol into a free cell is a computer move and
      uses up one free cell. */
  lemma PlaceIsComputerMove(g: Game, x: nat, y: nat)
    requires Valid(g) && InRange(x, y) && IsFree(g.board, x, y)
    ensures ComputerMoved(g, Place(g, x, y, Computer))
    ensures FreeCount(Place(g, x, y, Computer).board) == FreeCount(g.board) - 1
    ensures Place(g, x, y, Computer).history[|g.history|] == Move(Computer, x, y)
  {
    FreeCountAfterWrite(g.board, x, y, ComputerMark);
    var h' := Place(g, x, y, Computer).history;
    assert h'[..|g.history|] == g.history;
  }

  /** `_getFreeRandomCoordinates`: some free cell. The source draws random
      pairs until one is free; only the outcome is modelled, a free cell
      chosen without further constraint. It is only called once a free cell
      is known to exist. */
  method FreeRandomCoordinates(b: Grid) returns (x: nat, y: nat)
    requires IsGrid(b) && !NoFreeCell(b)
    ensures InRange(x, y) && IsFree(b, x, y)
  {
    x, y :| 0 <= x < Size && 0 <= y < Size && b[x][y] == Empty;
  }

  /** `createComputerMove` with the random choice left open. */
  method CreateComputerMove(g: Game) returns (r: Result<Game, Error>)
    requires Valid(g)
    ensures r.Failure? <==> NoFreeCell(g.board)
    ensures r.Failure? ==> r.error == NoCellsAvailable
    ensures r.Success? ==> Valid(r.value) && ComputerMoved(g, r.value)
    ensures r.Success? && UserWillWinNextMove(g.board) ==>
              var m := r.value.history[|g.history|]; IsBlockingCell(g.board, m.x, m.y)
  {
    if FreeCount(g.board) == 0 {
      return Failure(NoCellsAvailable);
    }
    var x, y := FreeRandomCoordinates(g.board);
    r := CreateComputerMoveWith(g, (x, y));
  }

  /** Filling the empty cell of a threat row with the computer's symbol
      leaves two user symbols, one computer symbol and no empty cell. */
  lemma BlockedRowCounts(row: seq<Cell>, y: nat)
    requires IsThreatRow(row) && |row| == Size && y < |row| && row[y] == Empty
    ensures Count(row[y := ComputerMark], UserMark) == 2
    ensures Count(row[y := ComputerMark], ComputerMark) == 1
    ensures Count(row[y := ComputerMark], Empty) == 0
  {
    var row' := row[y := ComputerMark];
    assert multiset(row') == multiset(row) - multiset{Empty} + multiset{ComputerMark} by {
      assert row == row[..y] + [Empty] + row[y + 1..];
      assert row' == row[..y] + [ComputerMark] + row[y + 1..];
    }
    assert multiset(row)[ComputerMark] == 0 by {
      assert |multiset(row)| == 3;
      assert multiset(row) == multiset(row)[UserMark := 0][Empty := 0] + multiset{UserMark, UserMark, Empty};
    }
  }

  /** After blocking, the blocked row holds two user symbols and one computer
      symbol, so the user can no longer complete it. */
  lemma BlockingNeutralisesRow(g: Game, random: (nat, nat))
    requires Valid(g) && InRange(random.0, random.1)
    requires !NoFreeCell(g.board) ==> IsFree(g.board, random.0, random.1)
    requires UserWillWinNextMove(g.board)
    ensures var r := CreateComputerMoveWith(g, random);
            && r.Success?
            && var x := r.value.history[|g.history|].x;
            && Count(r.value.board[x], UserMark) == 2
            && Count(r.value.board[x], ComputerMark) == 1
            && Count(r.value.board[x], Empty) == 0
  {
    var r := CreateComputerMoveWith(g, random);
    var i :| 0 <= i < |g.board| && IsThreatRow(g.board[i]);
    assert !NoFreeCell(g.board) by {
      assert Empty in multiset(g.board[i]);
      var j :| 0 <= j < |g.board[i]| && g.board[i][j] == Empty;
    }
    var m := r.value.history[|g.history|];
    assert r.value.board[m.x] == g.board[m.x][m.y := ComputerMark];
    BlockedRowCounts(g.board[m.x], m.y);
  }

  // ---------------------------------------------------------------------------
  // Winning and the status report

  /** `_getSymbolForPlayer`: the user's symbol for the user's name and the
      computer's symbol for ANY other name. */
  function SymbolFor(player: string): (c: Cell)
    ensures c != Empty
    ensures c == UserMark <==> player == UserName
  {
    if player == UserName then UserMark else ComputerMark
  }

  /** `isWinner(player)`: three rows, three columns and two diagonals, in
      the shape the source tests them. */
  function IsWinner(b: Grid, player: string): (r: bool)
    requires IsGrid(b)
    ensures r <==> HasLine(b, SymbolFor(player))
  {
    var s := SymbolFor(player);
    var horizontal := (b[0][0] == s && b[0][1] == s && b[0][2] == s)
                   || (b[1][0] == s && b[1][1] == s && b[1][2] == s)
                   || (b[2][0] == s && b[2][1] == s && b[2][2] == s);
    var vertical := (b[0][0] == s && b[1][0] == s && b[2][0] == s)
                 || (b[0][1] == s && b[1][1] == s && b[2][1] == s)
                 || (b[0][2] == s && b[1][2] == s && b[2][2] == s);
    var diagonal := (b[0][0] == s && b[1][1] == s && b[2][2] == s)
                 || (b[0][2] == s && b[1][1] == s && b[2][0] == s);
    LinesAreRowsColumnsDiagonals(b, s);
    horizontal || vertical || diagonal
  }

  /** The eight reference lines are exactly the rows, columns and diagonals. */
  lemma LinesAreRowsColumnsDiagonals(b: Grid, s: Cell)
    requires IsGrid(b)
    ensures HasLine(b, s) <==> (
              || (b[0][0] == s && b[0][1] == s && b[0][2] == s)
              || (b[1][0] == s && b[1][1] == s && b[1][2] == s)
              || (b[2][0] == s && b[2][1] == s && b[2][2] == s)
              || (b[0][0] == s && b[1][0] == s && b[2][0] == s)
              || (b[0][1] == s && b[1][1] == s && b[2][1] == s)
              || (b[0][2] == s && b[1][2] == s && b[2][2] == s)
              || (b[0][0] == s && b[1][1] == s && b[2][2] == s)
              || (b[0][2] == s && b[1][1] == s && b[2][0] == s))
  {
    if HasLine(b, s) {
      var n :| 0 <= n < |Lines| && LineHeld(b, Lines[n], s);
      assert n == 0 || n == 1 || n == 2 || n == 3 || n == 4 || n == 5 || n == 6 || n == 7;
    }
    if b[0][0] == s && b[0][1] == s && b[0][2] == s { assert LineHeld(b, Lines[0], s); }
    if b[1][0] == s && b[1][1] == s && b[1][2] == s { assert LineHeld(b, Lines[1], s); }
    if b[2][0] == s && b[2][1] == s && b[2][2] == s { assert LineHeld(b, Lines[2], s); }
    if b[0][0] == s && b[1][0] == s && b[2][0] == s { assert LineHeld(b, Lines[3], s); }
    if b[0][1] == s && b[1][1] == s && b[2][1] == s { assert LineHeld(b, Lines[4], s); }
    if b[0][2] == s && b[1][2] == s && b[2][2] == s { assert LineHeld(b, Lines[5], s); }
    if b[0][0] == s && b[1][1] == s && b[2][2] == s { assert LineHeld(b, Lines[6], s); }
    if b[0][2] == s && b[1][1] == s && b[2][0] == s { assert LineHeld(b, Lines[7], s); }
  }

  /** Some row is full exactly when one of the three rows is. */
  lemma SomeRowFull(b: Grid, s: Cell)
    requires IsGrid(b)
    ensures (exists i :: 0 <= i < Size && RowFull(b, i, s)) <==>
              || (b[0][0] == s && b[0][1] == s && b[0][2] == s)
              || (b[1][0] == s && b[1][1] == s && b[1][2] == s)
              || (b[2][0] == s && b[2][1] == s && b[2][2] == s)
  {
    if exists i :: 0 <= i < Size && RowFull(b, i, s) {
      var i :| 0 <= i < Size && RowFull(b, i, s);
      assert b[i][0] == s && b[i][1] == s && b[i][2] == s;
    }
    if b[0][0] == s && b[0][1] == s && b[0][2] == s { assert RowFull(b, 0, s); }
    if b[1][0] == s && b[1][1] == s && b[1][2] == s { assert RowFull(b, 1, s); }
    if b[2][0] == s && b[2][1] == s && b[2][2] == s { assert RowFull(b, 2, s); }
  }

  /** Some column is full exactly when one of the three columns is. */
  lemma SomeColumnFull(b: Grid, s: Cell)
    requires IsGrid(b)
    ensures (exists j :: 0 <= j < Size && ColumnFull(b, j, s)) <==>
              || (b[0][0] == s && b[1][0] == s && b[2][0] == s)
              || (b[0][1] == s && b[1][1] == s && b[2][1] == s)
              || (b[0][2] == s && b[1][2] == s && b[2][2] == s)
  {
    if exists j :: 0 <= j < Size && ColumnFull(b, j, s) {
      var j :| 0 <= j < Size && ColumnFull(b, j, s);
      assert b[0][j] == s && b[1][j] == s && b[2][j] == s;
    }
    if b[0][0] == s && b[1][0] == s && b[2][0] == s { assert ColumnFull(b, 0, s); }
    if b[0][1] == s && b[1][1] == s && b[2][1] == s { assert ColumnFull(b, 1, s); }
    if b[0][2] == s && b[1][2] == s && b[2][2] == s { assert ColumnFull(b, 2, s); }
  }

  /** `isWinner` agrees with the quantified notion of three in a row. */
  lemma WinnerHasStraightLine(b: Grid, player: string)
    requires IsGrid(b)
    ensures IsWinner(b, player) <==> StraightLine(b, SymbolFor(player))
  {
    var s := SymbolFor(player);
    LinesAreRowsColumnsDiagonals(b, s);
    SomeRowFull(b, s);
    SomeColumnFull(b, s);
    assert (forall i :: 0 <= i < Size ==> b[i][i] == s) <==> b[0][0] == s && b[1][1] == s && b[2][2] == s;
    assert (forall i :: 0 <= i < Size ==> b[i][Size - 1 - i] == s) <==> b[0][2] == s && b[1][1] == s && b[2][0] == s;
  }

  /** `checkGame`: a user line wins first, then a computer line, then a board
      with no empty cell is a draw; otherwise play continues. */
  function CheckGame(b: Grid): (s: Status)
    requires IsGrid(b)
    ensures s == UserWon <==> HasLine(b, UserMark)
    ensures s == ComputerWon <==> !HasLine(b, UserMark) && HasLine(b, ComputerMark)
    ensures s == Draw <==> !HasLine(b, UserMark) && !HasLine(b, ComputerMark) && NoFreeCell(b)
    ensures s == Continue <==> !HasLine(b, UserMark) && !HasLine(b, ComputerMark) && !NoFreeCell(b)
  {
    if IsWinner(b, UserName) then UserWon
    else if IsWinner(b, ComputerName) then ComputerWon
    else if FreeCount(b) == 0 then Draw
    else Continue
  }

  /** The string `checkGame` returns for each outcome. */
  function Message(s: Status): (m: string)
    ensures s == Continue <==> m == "continue"
    ensures (s == UserWon || s == ComputerWon) <==> |m| >= 5 && m[|m| - 5..] == " won!"
    ensures s == UserWon <==> |m| >= |UserName| && m[..|UserName|] == UserName
  {
    match s
    case UserWon => UserName + " won!"
    case ComputerWon =>
      assert (ComputerName + " won!")[0] != UserName[0];
      ComputerName + " won!"
    case Draw =>
      assert "nobody won :\U{2013}("[0] != UserName[0];
      "nobody won :\U{2013}("
    case Continue =>
      assert "continue"[0] != UserName[0];
      "continue"
  }

  /** Distinct outcomes are reported by distinct strings. */
  lemma MessagesDistinct(s: Status, t: Status)
    requires s != t
    ensures Message(s) != Message(t)
  {
    if s.UserWon? || t.UserWon? || s.ComputerWon? || t.ComputerWon? {
      assert Message(s)[0] != Message(t)[0] || |Message(s)| != |Message(t)|;
    }
  }

  // ---------------------------------------------------------------------------
  // A game played from the empty board

  /** The history explains the board: every entry lies on the board, holds the
      symbol of the player it records, no two entries share a cell, and the
      entries account for every occupied cell. */
  predicate Consistent(g: Game) {
    && Valid(g)
    && EntriesShown(g)
    && DistinctCells(g.history)
    && FreeCount(g.board) + |g.history| == Size * Size
  }

  /** Every history entry names a cell that shows its player's symbol. */
  predicate EntriesShown(g: Game)
    requires Valid(g)
  {
    forall k :: 0 <= k < |g.history| ==>
      InRange(g.history[k].x, g.history[k].y) &&
      g.board[g.history[k].x][g.history[k].y] == Symbol(g.history[k].turn)
  }

  /** No two history entries name the same cell. */
  predicate DistinctCells(h: seq<Move>) {
    forall k, l :: 0 <= k < l < |h| ==> h[k].x != h[l].x || h[k].y != h[l].y
  }

  /** A fresh game and a cleared game are consistent. */
  lemma FreshGameConsistent(g: Game)
    ensures Consistent(NewGame(None))
    ensures Consistent(Clear(g))
  {
    var c := Clear(g);
    assert c == NewGame(None) && FreeCount(c.board) == Size * Size;
    assert EntriesShown(c) && DistinctCells(c.history);
  }

  /** Writing a free cell keeps every earlier entry shown and adds one that
      is shown. */
  lemma PlaceKeepsEntriesShown(g: Game, x: nat, y: nat, p: Player)
    requires Valid(g) && EntriesShown(g) && InRange(x, y) && IsFree(g.board, x, y)
    ensures EntriesShown(Place(g, x, y, p))
  {
    var g' := Place(g, x, y, p);
    forall k | 0 <= k < |g.history|
      ensures g.history[k].x != x || g.history[k].y != y
    {
      assert g.board[g.history[k].x][g.history[k].y] != Empty;
    }
    assert forall k :: 0 <= k < |g.history| ==> g'.history[k] == g.history[k];
  }

  /** Writing a free cell names a cell no earlier entry names. */
  lemma PlaceKeepsDistinct(g: Game, x: nat, y: nat, p: Player)
    requires Valid(g) && EntriesShown(g) && DistinctCells(g.history)
    requires InRange(x, y) && IsFree(g.board, x, y)
    ensures DistinctCells(Place(g, x, y, p).history)
  {
    var h' := Place(g, x, y, p).history;
    forall k | 0 <= k < |g.history|
      ensures g.history[k].x != x || g.history[k].y != y
    {
      assert g.board[g.history[k].x][g.history[k].y] != Empty;
    }
    assert forall k :: 0 <= k < |g.history| ==> h'[k] == g.history[k];
  }

  /** Writing a free cell keeps the history and board consistent. */
  lemma PlacePreservesConsistency(g: Game, x: nat, y: nat, p: Player)
    requires Consistent(g) && InRange(x, y) && IsFree(g.board, x, y)
    ensures Consistent(Place(g, x, y, p))
  {
    FreeCountAfterWrite(g.board, x, y, Symbol(p));
    PlaceKeepsEntriesShown(g, x, y, p);
    PlaceKeepsDistinct(g, x, y, p);
  }

  /** An accepted user move keeps the game consistent. */
  lemma AcceptPreservesConsistency(g: Game, x: nat, y: nat)
    requires Consistent(g) && InRange(x, y)
    ensures AcceptUserMove(g, x, y).Success? ==> Consistent(AcceptUserMove(g, x, y).value)
  {
    if IsFree(g.board, x, y) {
      PlacePreservesConsistency(g, x, y, User);
    }
  }

  /** A computer move keeps the game consistent. */
  lemma ComputerMovePreservesConsistency(g: Game, random: (nat, nat))
    requires Consistent(g) && InRange(random.0, random.1)
    requires !NoFreeCell(g.board) ==> IsFree(g.board, random.0, random.1)
    ensures var r := CreateComputerMoveWith(g, random);
            r.Success? ==> Consistent(r.value)
  {
    var r := CreateComputerMoveWith(g, random);
    if r.Success? {
      var m := r.value.history[|g.history|];
      assert r.value == Place(g, m.x, m.y, Computer);
      PlacePreservesConsistency(g, m.x, m.y, Computer);
    }
  }

  /** In a consistent game the free cells and the moves made add up to nine,
      so a full board has a nine-move history. */
  lemma FullBoardMeansNineMoves(g: Game)
    requires Consistent(g)
    ensures NoFreeCell(g.board) <==> |g.history| == Size * Size
  {
  }
}
