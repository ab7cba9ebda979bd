/** The 3×3 board of `src/Game.js`: cells, rows, the counts the engine takes
    with `reduce`, the eight lines a player can complete, and the single-cell
    write every move performs. */
module Board {

  /** A cell holds the empty string, the user's symbol or the computer's symbol. */
  datatype Cell = Empty | UserMark | ComputerMark

  /** The two parties that can make a move. */
  datatype Player = User | Computer

  /** The board's fixed dimension (`this._fieldSize`). */
  const Size: nat := 3

  type Grid = seq<seq<Cell>>

  /** The symbol a player writes. */
  function Symbol(p: Player): Cell {
    match p
    case User => UserMark
    case Computer => ComputerMark
  }

  /** The string each cell value is in the source: `''`, `USER_MOVE_SYMBOL`
      (`'×'`) and `COMPUTER_MOVE_SYMBOL` (`'o'`). */
  function CellText(c: Cell): (t: string)
    ensures t == "" <==> c == Empty
  {
    match c
    case Empty => ""
    case UserMark => "\U{00D7}"
    case ComputerMark => "o"
  }

  predicate IsGrid(b: Grid) {
    |b| == Size && forall i :: 0 <= i < |b| ==> |b[i]| == Size
  }

  predicate InRange(x: int, y: int) {
    0 <= x < Size && 0 <= y < Size
  }

  /** `INITIAL_GAME_BOARD`: three rows of three empty cells. */
  const EmptyGrid: Grid := [[Empty, Empty, Empty], [Empty, Empty, Empty], [Empty, Empty, Empty]]

  /** `_isCellFree`: `!this._board[x][y]`, and the empty string is the only
      cell value JavaScript treats as false. */
  predicate IsFree(b: Grid, x: int, y: int): (free: bool)
    requires IsGrid(b) && InRange(x, y)
    ensures free <==> CellText(b[x][y]) == ""
  {
    b[x][y] == Empty
  }

  /** No cell of the board is empty. */
  predicate NoFreeCell(b: Grid)
    requires IsGrid(b)
  {
    forall i, j :: 0 <= i < Size && 0 <= j < Size ==> b[i][j] != Empty
  }

  /** How many cells of `row` hold `c`: the `row.reduce(...)` counting idiom
      of the source. */
  function Count(row: seq<Cell>, c: Cell): (n: nat)
    ensures n == multiset(row)[c]
  {
    if |row| == 0 then 0
    else
      assert row == [row[0]] + row[1..];
      (if row[0] == c then 1 else 0) + Count(row[1..], c)
  }

  /** `_getFreeCellsCount`: the number of empty cells, summed row by row. */
  function FreeCount(b: Grid): (n: nat)
    ensures n == 0 <==> forall i, j :: 0 <= i < |b| && 0 <= j < |b[i]| ==> b[i][j] != Empty
  {
    if |b| == 0 then 0
    else
      assert forall i, j :: 1 <= i < |b| && 0 <= j < |b[i]| ==> b[i][j] == b[1..][i - 1][j];
      Count(b[0], Empty) + FreeCount(b[1..])
  }

  /** `b'` is `b` with cell `[x][y]` set to `c` and every other cell as it was. */
  predicate Written(b: Grid, b': Grid, x: int, y: int, c: Cell)
    requires IsGrid(b) && InRange(x, y)
  {
    && IsGrid(b')
    && b'[x][y] == c
    && forall i, j :: 0 <= i < Size && 0 <= j < Size && (i != x || j != y) ==> b'[i][j] == b[i][j]
  }

  /** `_updateBoard`: `this._board[x][y] = symbol`. */
  function UpdateBoard(b: Grid, x: nat, y: nat, c: Cell): (b': Grid)
    requires IsGrid(b) && InRange(x, y)
    ensures Written(b, b', x, y, c)
  {
    b[x := b[x][y := c]]
  }

  /** Writing a mark into an empty cell of a row takes one off its empty count. */
  lemma RowCountAfterWrite(row: seq<Cell>, y: nat, c: Cell)
    requires y < |row| && row[y] == Empty && c != Empty
    ensures Count(row[y := c], Empty) == Count(row, Empty) - 1
  {
    assert multiset(row[y := c]) == multiset(row) - multiset{Empty} + multiset{c} by {
      assert row == row[..y] + [Empty] + row[y + 1..];
      assert row[y := c] == row[..y] + [c] + row[y + 1..];
    }
  }

  /** Writing a mark into an empty cell takes exactly one cell off the free count. */
  lemma {:induction false} FreeCountAfterWrite(b: Grid, x: nat, y: nat, c: Cell)
    requires |b| > x && |b[x]| > y && b[x][y] == Empty && c != Empty
    ensures FreeCount(b[x := b[x][y := c]]) == FreeCount(b) - 1
    decreases x
  {
    var b' := b[x := b[x][y := c]];
    assert FreeCount(b) == Count(b[0], Empty) + FreeCount(b[1..]);
    assert FreeCount(b') == Count(b'[0], Empty) + FreeCount(b'[1..]);
    if x == 0 {
      assert b'[1..] == b[1..];
      RowCountAfterWrite(b[0], y, c);
    } else {
      assert b'[0] == b[0];
      assert b'[1..] == b[1..][x - 1 := b[1..][x - 1][y := c]];
      FreeCountAfterWrite(b[1..], x - 1, y, c);
    }
  }


  /** A row, column or diagonal: three coordinates. */
  datatype Line = Line(first: (int, int), second: (int, int), third: (int, int))

  /** The eight lines: rows top to bottom, columns left to right, main
      diagonal, anti-diagonal. */
  const Lines: seq<Line> := [
    Line((0, 0), (0, 1), (0, 2)), Line((1, 0), (1, 1), (1, 2)), Line((2, 0), (2, 1), (2, 2)),
    Line((0, 0), (1, 0), (2, 0)), Line((0, 1), (1, 1), (2, 1)), Line((0, 2), (1, 2), (2, 2)),
    Line((0, 0), (1, 1), (2, 2)), Line((0, 2), (1, 1), (2, 0))
  ]

  predicate CellHeld(b: Grid, at: (int, int), c: Cell)
    requires IsGrid(b)
  {
    InRange(at.0, at.1) && b[at.0][at.1] == c
  }

  /** Every cell of `line` holds `c`. */
  predicate LineHeld(b: Grid, line: Line, c: Cell)
    requires IsGrid(b)
  {
    CellHeld(b, line.first, c) && CellHeld(b, line.second, c) && CellHeld(b, line.third, c)
  }

  /** Some row, column or diagonal is entirely `c`. */
  predicate HasLine(b: Grid, c: Cell)
    requires IsGrid(b)
  {
    exists n :: 0 <= n < |Lines| && LineHeld(b, Lines[n], c)
  }
  /** Row `i` is entirely `c`. */
  predicate RowFull(b: Grid, i: int, c: Cell)
    requires IsGrid(b) && 0 <= i < Size
  {
    forall j :: 0 <= j < Size ==> b[i][j] == c
  }

  /** Column `j` is entirely `c`. */
  predicate ColumnFull(b: Grid, j: int, c: Cell)
    requires IsGrid(b) && 0 <= j < Size
  {
    forall i :: 0 <= i < Size ==> b[i][j] == c
  }

  /** Three in a row stated by quantifiers rather than by a coordinate table:
      some full row, some full column, or either full diagonal. */
  predicate StraightLine(b: Grid, c: Cell)
    requires IsGrid(b)
  {
    || (exists i :: 0 <= i < Size && RowFull(b, i, c))
    || (exists j :: 0 <= j < Size && ColumnFull(b, j, c))
    || (forall i :: 0 <= i < Size ==> b[i][i] == c)
    || (forall i :: 0 <= i < Size ==> b[i][Size - 1 - i] == c)
  }

}
