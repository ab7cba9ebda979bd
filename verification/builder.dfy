/** The layout builder of `test/GameBuilder.js`: a textual board layout is
    split into lines, blank lines are dropped, each remaining line is trimmed
    and split on single spaces, and every token that is one of the two
    symbols triggers one move at (line index, token index) on the builder's
    game.

    The builder passes the token's symbol as a third argument, but
    `acceptUserMove` takes only two, so a computer token is written as a user
    move. `AsWritten` models that; `Corrected` honours the symbol. */
module GameBuilder {
  import opened Wrappers
  import opened Board
  import opened GameEngine
  import opened Text

  /** A builder owns one game, fresh when the builder is created. */
  datatype Builder = Builder(game: Game)

  /** What a call that may throw leaves behind: the builder, whose game keeps
      every move made before the exception, and the exception, if any. */
  datatype Chained = Chained(builder: Builder, thrown: Option<Error>)

  /** The game and the exception, if any, after playing some tokens. */
  datatype Played = Played(game: Game, thrown: Option<Error>)

  /** Which move operation a recognised token reaches. */
  datatype Engine = AsWritten | Corrected

  /** The constructor: a builder around a new game, with no moves and every
      cell empty. */
  function NewBuilder(): (b: Builder)
    ensures b.game.history == [] && Valid(b.game)
    ensures forall i, j :: 0 <= i < Size && 0 <= j < Size ==> b.game.board[i][j] == Empty
  {
    Builder(NewGame(None))
  }

  /** `build`: the builder's own game, not a copy, so every move the chained
      calls made is in it. */
  function Build(b: Builder): (g: Game)
    ensures g == b.game
  {
    b.game
  }

  // ---------------------------------------------------------------------------
  // Parsing the layout

  /** `.filter(item => !!item.trim())`: the lines that are not blank, in
      order. A trimmed line is empty exactly when the line is blank (see
      `Text.Trim`). */
  function NonBlank(lines: seq<string>): (kept: seq<string>)
    ensures |kept| <= |lines|
    ensures forall k :: 0 <= k < |kept| ==> !Blank(kept[k])
  {
    if |lines| == 0 then []
    else
      var rest := NonBlank(lines[1..]);
      if Blank(lines[0]) then rest
      else
        assert forall k :: 1 <= k < |rest| + 1 ==> ([lines[0]] + rest)[k] == rest[k - 1];
        [lines[0]] + rest
  }

  /** The filter keeps every line when none is blank. */
  lemma {:induction false} NonBlankKeepsAll(lines: seq<string>)
    requires forall k :: 0 <= k < |lines| ==> !Blank(lines[k])
    ensures NonBlank(lines) == lines
  {
    if |lines| > 0 {
      NonBlankKeepsAll(lines[1..]);
      assert [lines[0]] + lines[1..] == lines;
    }
  }

  /** Filtering a concatenation filters each part. */
  lemma {:induction false} NonBlankAppend(a: seq<string>, b: seq<string>)
    ensures NonBlank(a + b) == NonBlank(a) + NonBlank(b)
  {
    if |a| > 0 {
      assert (a + b)[0] == a[0];
      assert (a + b)[1..] == a[1..] + b;
      NonBlankAppend(a[1..], b);
      if !Blank(a[0]) {
        AppendAssoc([a[0]], NonBlank(a[1..]), NonBlank(b));
      }
    } else {
      assert a + b == b;
    }
  }

  /** Concatenation is associative. */
  lemma AppendAssoc<T>(x: seq<T>, y: seq<T>, z: seq<T>)
    ensures x + (y + z) == (x + y) + z
  {
  }

  /** A token never contains the space it was split on. */
  predicate SpaceFree(token: string) {
    ' ' !in token
  }

  /** The tokens of one kept line: `item.trim().split(' ')`. */
  function Tokens(line: string): (tokens: seq<string>)
    ensures |tokens| >= 1
    ensures forall k :: 0 <= k < |tokens| ==> SpaceFree(tokens[k])
  {
    Split(Trim(line), ' ')
  }

  /** A line that is not blank has a non-empty first and last token: only
      doubled inner spaces give empty tokens. */
  lemma OuterTokensNonEmpty(line: string)
    requires !Blank(line)
    ensures |Tokens(line)[0]| > 0 && |Tokens(line)[|Tokens(line)| - 1]| > 0
  {
    var t := Trim(line);
    assert Tokens(line) == Split(t, ' ');
    TrimEmptyIffBlank(line);
    assert t[0] != ' ' && t[|t| - 1] != ' ';
    FirstPieceNonEmpty(t, ' ');
    LastPieceNonEmpty(t, ' ');
  }

  /** The tokens of each line, in order. */
  function TokenRows(lines: seq<string>): (rows: seq<seq<string>>)
    ensures |rows| == |lines|
    ensures forall i, j :: 0 <= i < |rows| && 0 <= j < |rows[i]| ==> SpaceFree(rows[i][j])
  {
    seq(|lines|, k requires 0 <= k < |lines| => Tokens(lines[k]))
  }

  /** The parsed layout: one row of tokens per non-blank line, in order. */
  function Layout(state: string): (rows: seq<seq<string>>)
    ensures |rows| <= multiset(state)['\n'] + 1
    ensures forall i, j :: 0 <= i < |rows| && 0 <= j < |rows[i]| ==> SpaceFree(rows[i][j])
  {
    JoinSplit(state, '\n');
    TokenRows(NonBlank(Split(state, '\n')))
  }

  /** Blank and white-space-only lines do not count as rows: removing one
      from the layout leaves the parsed rows unchanged. */
  lemma BlankLinesIgnored(before: seq<string>, line: string, after: seq<string>)
    requires |before + after| >= 1
    requires Avoids(before, '\n') && Avoids(after, '\n')
    requires '\n' !in line && Blank(line)
    ensures Layout(Join(before + [line] + after, '\n')) == Layout(Join(before + after, '\n'))
  {
    var with := before + [line] + after;
    var without := before + after;
    assert Avoids([line], '\n');
    AvoidsAppend(before, [line], '\n');
    AvoidsAppend(before + [line], after, '\n');
    AvoidsAppend(before, after, '\n');
    SplitJoin(with, '\n');
    SplitJoin(without, '\n');
    BlankLineDropped(before, line, after);
  }

  /** The filter drops a blank line wherever it stands. */
  lemma BlankLineDropped(before: seq<string>, line: string, after: seq<string>)
    requires Blank(line)
    ensures NonBlank(before + [line] + after) == NonBlank(before + after)
  {
    assert NonBlank([line]) == [];
    NonBlankAppend(before, [line]);
    NonBlankAppend(before + [line], after);
    NonBlankAppend(before, after);
  }

  // ---------------------------------------------------------------------------
  // Playing the tokens

  /** The player whose symbol a token is, if it is one of the two symbols. */
  function TokenPlayer(token: string): (p: Option<Player>)
    ensures p.Some? <==> token == CellText(UserMark) || token == CellText(ComputerMark)
    ensures p.Some? ==> token == CellText(Symbol(p.value))
  {
    if token == CellText(UserMark) then Some(User)
    else if token == CellText(ComputerMark) then Some(Computer)
    else None
  }

  /** The call one recognised token makes: `acceptUserMove(i, j, symbol)`.
      As written, the symbol argument is dropped. */
  function Accept(e: Engine, g: Game, i: nat, j: nat, p: Player): (r: Result<Game, Error>)
    requires Valid(g) && InRange(i, j)
    ensures r == AcceptMove(g, i, j, Recorded(e, p))
  {
    AcceptUserMoveIsUserCase(g, i, j);
    match e
    case AsWritten => AcceptUserMove(g, i, j)
    case Corrected => AcceptMove(g, i, j, p)
  }

  /** The player a token's move is recorded for. */
  function Recorded(e: Engine, p: Player): Player {
    match e
    case AsWritten => User
    case Corrected => p
  }

  /** The recognised tokens of `row` from column `j` on lie on the board. */
  predicate RowFits(i: int, row: seq<string>, j: int) {
    forall y :: j <= y < |row| && 0 <= y && TokenPlayer(row[y]).Some? ==> InRange(i, y)
  }

  /** Every recognised token of rows `i` on lies on the board. */
  predicate Fits(rows: seq<seq<string>>, i: int) {
    forall x :: i <= x < |rows| && 0 <= x ==> RowFits(x, rows[x], 0)
  }

  /** The inner `forEach`: tokens `j` on of row `i`, in order, stopping at the
      first exception. */
  function PlayRow(e: Engine, g: Game, i: nat, row: seq<string>, j: nat): (r: Played)
    requires Valid(g) && RowFits(i, row, j)
    ensures Valid(r.game)
    decreases |row| - j
  {
    if j >= |row| then Played(g, None)
    else match TokenPlayer(row[j])
      case None => PlayRow(e, g, i, row, j + 1)
      case Some(p) =>
        match Accept(e, g, i, j, p)
        case Failure(err) => Played(g, Some(err))
        case Success(g') => PlayRow(e, g', i, row, j + 1)
  }

  /** The outer `forEach`: rows `i` on, in order, stopping at the first
      exception. */
  function PlayRows(e: Engine, g: Game, rows: seq<seq<string>>, i: nat): (r: Played)
    requires Valid(g) && Fits(rows, i)
    ensures Valid(r.game)
    decreases |rows| - i
  {
    if i >= |rows| then Played(g, None)
    else
      var r := PlayRow(e, g, i, rows[i], 0);
      if r.thrown.Some? then r else PlayRows(e, r.game, rows, i + 1)
  }

  /** `withBoardState(state)` as written: every recognised token becomes
      `acceptUserMove(i, j)`. Returns the builder so calls chain. */
  function WithBoardState(b: Builder, state: string): (c: Chained)
    requires Valid(b.game) && Fits(Layout(state), 0)
    ensures Valid(c.builder.game)
  {
    var r := PlayRows(AsWritten, b.game, Layout(state), 0);
    Chained(Builder(r.game), r.thrown)
  }

  /** `withBoardState(state)` with each token's symbol honoured. */
  function WithBoardStateCorrected(b: Builder, state: string): (c: Chained)
    requires Valid(b.game) && Fits(Layout(state), 0)
    ensures Valid(c.builder.game)
  {
    var r := PlayRows(Corrected, b.game, Layout(state), 0);
    Chained(Builder(r.game), r.thrown)
  }

  // ---------------------------------------------------------------------------
  // What playing a layout does

  /** The moves the tokens `j` on of row `i` ask for, in order: one per
      recognised token, for the token's player at the token's position. */
  function RowRequests(i: nat, row: seq<string>, j: nat): seq<Move>
    decreases |row| - j
  {
    if j >= |row| then []
    else
      (match TokenPlayer(row[j]) case None => [] case Some(p) => [Move(p, i, j)])
      + RowRequests(i, row, j + 1)
  }

  /** The moves rows `i` on ask for, in row-major order. */
  function Requests(rows: seq<seq<string>>, i: nat): seq<Move>
    decreases |rows| - i
  {
    if i >= |rows| then [] else RowRequests(i, rows[i], 0) + Requests(rows, i + 1)
  }

  /** The history entries the requested moves produce: as written, every
      entry is a user entry; corrected, the entries are the requests. */
  function AsRecorded(e: Engine, ms: seq<Move>): (h: seq<Move>)
    ensures |h| == |ms|
  {
    if |ms| == 0 then []
    else [Move(Recorded(e, ms[0].turn), ms[0].x, ms[0].y)] + AsRecorded(e, ms[1..])
  }

  /** The mark a layout position ends up with, or `None` if it holds no
      recognised token. */
  function Requested(e: Engine, rows: seq<seq<string>>, x: int, y: int): Option<Cell> {
    if 0 <= x < |rows| && 0 <= y < |rows[x]| && TokenPlayer(rows[x][y]).Some?
    then Some(Symbol(Recorded(e, TokenPlayer(rows[x][y]).value)))
    else None
  }

  /** The cell `[x][y]` of `b` after the recognised tokens `j` on of row `i`
      are written. */
  function RowCell(e: Engine, i: int, row: seq<string>, j: int, b: Grid, x: int, y: int): Cell
    requires IsGrid(b) && InRange(x, y)
  {
    if x == i && j <= y < |row| && TokenPlayer(row[y]).Some?
    then Symbol(Recorded(e, TokenPlayer(row[y]).value))
    else b[x][y]
  }

  /** `b'` is `b` with the recognised tokens `j` on of row `i` written. */
  ghost predicate RowApplied(e: Engine, i: int, row: seq<string>, j: int, b: Grid, b': Grid)
    requires IsGrid(b) && IsGrid(b')
  {
    forall x, y :: 0 <= x < Size && 0 <= y < Size ==> b'[x][y] == RowCell(e, i, row, j, b, x, y)
  }

  /** One step of a row: token `j` either asked for nothing, or had its mark
      written into a free cell. */
  lemma RowAppliedStep(e: Engine, i: int, row: seq<string>, j: nat, b: Grid, b1: Grid, b2: Grid)
    requires IsGrid(b) && IsGrid(b1) && IsGrid(b2) && InRange(i, j) && j < |row|
    requires TokenPlayer(row[j]).None? ==> b1 == b
    requires TokenPlayer(row[j]).Some? ==>
               Written(b, b1, i, j, Symbol(Recorded(e, TokenPlayer(row[j]).value)))
    requires RowApplied(e, i, row, j + 1, b1, b2)
    ensures RowApplied(e, i, row, j, b, b2)
  {
    forall x, y | 0 <= x < Size && 0 <= y < Size
      ensures b2[x][y] == RowCell(e, i, row, j, b, x, y)
    {
      assert b2[x][y] == RowCell(e, i, row, j + 1, b1, x, y);
    }
  }

  /** Playing tokens `j` on of row `i` onto cells that are all free throws
      nothing and writes exactly the requested cells. */
  lemma {:induction false} PlayRowBoard(e: Engine, g: Game, i: nat, row: seq<string>, j: nat)
    requires Valid(g) && RowFits(i, row, j)
    requires forall y :: j <= y < |row| && TokenPlayer(row[y]).Some? ==> InRange(i, y) && g.board[i][y] == Empty
    ensures PlayRow(e, g, i, row, j).thrown.None?
    ensures RowApplied(e, i, row, j, g.board, PlayRow(e, g, i, row, j).game.board)
    decreases |row| - j
  {
    if j < |row| {
      match TokenPlayer(row[j])
      case None =>
        PlayRowBoard(e, g, i, row, j + 1);
        if InRange(i, j) {
          RowAppliedStep(e, i, row, j, g.board, g.board, PlayRow(e, g, i, row, j + 1).game.board);
        }
      case Some(p) =>
        var g' := Accept(e, g, i, j, p).value;
        PlayRowBoard(e, g', i, row, j + 1);
        RowAppliedStep(e, i, row, j, g.board, g'.board, PlayRow(e, g', i, row, j + 1).game.board);
    }
  }

  /** One recognised token: its entry comes first, then those of the rest
      of the row. */
  lemma HistoryStep(e: Engine, h: seq<Move>, h': seq<Move>, i: nat, row: seq<string>, j: nat, p: Player)
    requires j < |row| && TokenPlayer(row[j]) == Some(p)
    requires h' == h + [Move(Recorded(e, p), i, j)] + AsRecorded(e, RowRequests(i, row, j + 1))
    ensures h' == h + AsRecorded(e, RowRequests(i, row, j))
  {
    var rest := RowRequests(i, row, j + 1);
    var m := Move(Recorded(e, p), i, j);
    assert RowRequests(i, row, j) == [Move(p, i, j)] + rest;
    assert ([Move(p, i, j)] + rest)[1..] == rest;
    assert AsRecorded(e, [Move(p, i, j)] + rest) == [m] + AsRecorded(e, rest);
    assert h + [m] + AsRecorded(e, rest) == h + ([m] + AsRecorded(e, rest));
  }

  /** Playing tokens `j` on of row `i` onto cells that are all free appends
      one entry per recognised token, in order. */
  lemma {:induction false} PlayRowHistory(e: Engine, g: Game, i: nat, row: seq<string>, j: nat)
    requires Valid(g) && RowFits(i, row, j)
    requires forall y :: j <= y < |row| && TokenPlayer(row[y]).Some? ==> InRange(i, y) && g.board[i][y] == Empty
    ensures PlayRow(e, g, i, row, j).game.history == g.history + AsRecorded(e, RowRequests(i, row, j))
    decreases |row| - j
  {
    if j >= |row| {
      assert g.history + AsRecorded(e, []) == g.history;
    } else {
      match TokenPlayer(row[j])
      case None =>
        assert PlayRow(e, g, i, row, j) == PlayRow(e, g, i, row, j + 1);
        assert RowRequests(i, row, j) == RowRequests(i, row, j + 1);
        PlayRowHistory(e, g, i, row, j + 1);
      case Some(p) =>
        var g' := Accept(e, g, i, j, p).value;
        assert PlayRow(e, g, i, row, j) == PlayRow(e, g', i, row, j + 1);
        PlayRowHistory(e, g', i, row, j + 1);
        HistoryStep(e, g.history, PlayRow(e, g, i, row, j).game.history, i, row, j, p);
    }
  }

  /** Entry `k` of the history is request `k` recorded for `Recorded(e, _)`. */
  lemma {:induction false} AsRecordedEntries(e: Engine, ms: seq<Move>)
    ensures forall k :: 0 <= k < |ms| ==>
              AsRecorded(e, ms)[k] == Move(Recorded(e, ms[k].turn), ms[k].x, ms[k].y)
  {
    if |ms| > 0 {
      AsRecordedEntries(e, ms[1..]);
    }
  }

  /** Recording a concatenation records each part. */
  lemma {:induction false} AsRecordedAppend(e: Engine, a: seq<Move>, b: seq<Move>)
    ensures AsRecorded(e, a + b) == AsRecorded(e, a) + AsRecorded(e, b)
  {
    if |a| == 0 {
      assert a + b == b;
    } else {
      assert (a + b)[1..] == a[1..] + b;
      AsRecordedAppend(e, a[1..], b);
    }
  }

  /** The cell `[x][y]` of `b` after the recognised tokens of rows `i` on
      are written. */
  function LayoutCell(e: Engine, rows: seq<seq<string>>, i: int, b: Grid, x: int, y: int): Cell
    requires IsGrid(b) && InRange(x, y)
  {
    if x >= i && Requested(e, rows, x, y).Some? then Requested(e, rows, x, y).value else b[x][y]
  }

  /** `b'` is `b` with the recognised tokens of rows `i` on written. */
  ghost predicate Applied(e: Engine, rows: seq<seq<string>>, i: int, b: Grid, b': Grid)
    requires IsGrid(b) && IsGrid(b')
  {
    forall x, y :: 0 <= x < Size && 0 <= y < Size ==> b'[x][y] == LayoutCell(e, rows, i, b, x, y)
  }

  /** Every cell a recognised token of rows `i` on asks for is free in `b`. */
  ghost predicate TargetsFree(e: Engine, rows: seq<seq<string>>, i: int, b: Grid)
    requires IsGrid(b)
  {
    forall x, y :: 0 <= x < Size && 0 <= y < Size && x >= i && Requested(e, rows, x, y).Some? ==> b[x][y] == Empty
  }

  /** The targets of row `i` lie on the board and are free. */
  lemma RowTargetsFree(e: Engine, rows: seq<seq<string>>, i: nat, b: Grid)
    requires IsGrid(b) && Fits(rows, i) && i < |rows| && TargetsFree(e, rows, i, b)
    ensures RowFits(i, rows[i], 0)
    ensures forall y :: 0 <= y < |rows[i]| && TokenPlayer(rows[i][y]).Some? ==> InRange(i, y) && b[i][y] == Empty
  {
    assert RowFits(i, rows[i], 0);
    forall y | 0 <= y < |rows[i]| && TokenPlayer(rows[i][y]).Some?
      ensures InRange(i, y) && b[i][y] == Empty
    {
      assert Requested(e, rows, i, y).Some?;
    }
  }

  /** Playing row `i` leaves the targets of the later rows free and composes
      with playing the later rows. */
  lemma AppliedStep(e: Engine, rows: seq<seq<string>>, i: nat, b: Grid, b1: Grid, b2: Grid)
    requires IsGrid(b) && IsGrid(b1) && IsGrid(b2) && i < |rows|
    requires RowApplied(e, i, rows[i], 0, b, b1)
    ensures TargetsFree(e, rows, i, b) ==> TargetsFree(e, rows, i + 1, b1)
    ensures Applied(e, rows, i + 1, b1, b2) ==> Applied(e, rows, i, b, b2)
  {
    forall x, y | 0 <= x < Size && 0 <= y < Size
      ensures b1[x][y] == (if x == i then LayoutCell(e, rows, i, b, x, y) else b[x][y])
    {
      assert b1[x][y] == RowCell(e, i, rows[i], 0, b, x, y);
    }
    if Applied(e, rows, i + 1, b1, b2) {
      forall x, y | 0 <= x < Size && 0 <= y < Size
        ensures b2[x][y] == LayoutCell(e, rows, i, b, x, y)
      {
        assert b2[x][y] == LayoutCell(e, rows, i + 1, b1, x, y);
      }
    }
  }

  /** Playing rows `i` on onto cells that are all free throws nothing and
      writes exactly the requested cells. */
  lemma {:induction false} PlayRowsBoard(e: Engine, g: Game, rows: seq<seq<string>>, i: nat)
    requires Valid(g) && Fits(rows, i) && TargetsFree(e, rows, i, g.board)
    ensures PlayRows(e, g, rows, i).thrown.None?
    ensures Applied(e, rows, i, g.board, PlayRows(e, g, rows, i).game.board)
    decreases |rows| - i
  {
    if i < |rows| {
      var row := rows[i];
      RowTargetsFree(e, rows, i, g.board);
      PlayRowBoard(e, g, i, row, 0);
      var r := PlayRow(e, g, i, row, 0);
      AppliedStep(e, rows, i, g.board, r.game.board, PlayRows(e, r.game, rows, i + 1).game.board);
      PlayRowsBoard(e, r.game, rows, i + 1);
    }
  }

  /** Row `i`'s entries come first, then those of the later rows. */
  lemma RowsHistoryStep(e: Engine, h: seq<Move>, h1: seq<Move>, h2: seq<Move>, rows: seq<seq<string>>, i: nat)
    requires i < |rows|
    requires h1 == h + AsRecorded(e, RowRequests(i, rows[i], 0))
    requires h2 == h1 + AsRecorded(e, Requests(rows, i + 1))
    ensures h2 == h + AsRecorded(e, Requests(rows, i))
  {
    var mine := AsRecorded(e, RowRequests(i, rows[i], 0));
    var later := AsRecorded(e, Requests(rows, i + 1));
    AsRecordedAppend(e, RowRequests(i, rows[i], 0), Requests(rows, i + 1));
    assert h + mine + later == h + (mine + later);
  }

  /** Playing rows `i` on onto cells that are all free appends the requested
      moves in row-major order. */
  lemma {:induction false} PlayRowsHistory(e: Engine, g: Game, rows: seq<seq<string>>, i: nat)
    requires Valid(g) && Fits(rows, i) && TargetsFree(e, rows, i, g.board)
    ensures PlayRows(e, g, rows, i).game.history == g.history + AsRecorded(e, Requests(rows, i))
    decreases |rows| - i
  {
    if i >= |rows| {
      assert g.history + AsRecorded(e, []) == g.history;
    } else {
      var row := rows[i];
      RowTargetsFree(e, rows, i, g.board);
      PlayRowBoard(e, g, i, row, 0);
      PlayRowHistory(e, g, i, row, 0);
      var r := PlayRow(e, g, i, row, 0);
      AppliedStep(e, rows, i, g.board, r.game.board, r.game.board);
      assert PlayRows(e, g, rows, i) == PlayRows(e, r.game, rows, i + 1);
      PlayRowsHistory(e, r.game, rows, i + 1);
      RowsHistoryStep(e, g.history, r.game.history, PlayRows(e, g, rows, i).game.history, rows, i);
    }
  }

  /** On a fresh builder, a layout whose recognised tokens all lie on the
      board is played without exception: each position visited once, so no
      cell is ever taken twice. */
  lemma FreshLayoutEffect(e: Engine, rows: seq<seq<string>>)
    requires Fits(rows, 0)
    ensures var r := PlayRows(e, NewGame(None), rows, 0);
            && r.thrown.None?
            && r.game.history == AsRecorded(e, Requests(rows, 0))
            && forall x, y :: 0 <= x < Size && 0 <= y < Size ==>
                 r.game.board[x][y] == Requested(e, rows, x, y).GetOr(Empty)
  {
    PlayRowsBoard(e, NewGame(None), rows, 0);
    PlayRowsHistory(e, NewGame(None), rows, 0);
  }

  // ---------------------------------------------------------------------------
  // When playing a layout throws

  /** Some recognised token `j` on of row `i` asks for a cell that is
      already marked in `b`. */
  ghost predicate RowBlocked(i: int, row: seq<string>, j: nat, b: Grid)
    requires IsGrid(b)
  {
    exists y :: j <= y < |row| && TokenPlayer(row[y]).Some? && InRange(i, y) && b[i][y] != Empty
  }

  /** A token that is not recognised does not change whether the row is
      blocked. */
  lemma RowBlockedSkip(i: int, row: seq<string>, j: nat, b: Grid)
    requires IsGrid(b) && j < |row| && TokenPlayer(row[j]).None?
    ensures RowBlocked(i, row, j, b) <==> RowBlocked(i, row, j + 1, b)
  {
    if RowBlocked(i, row, j, b) {
      var y :| j <= y < |row| && TokenPlayer(row[y]).Some? && InRange(i, y) && b[i][y] != Empty;
      assert RowBlocked(i, row, j + 1, b);
    }
  }

  /** Writing token `j` into its free cell does not change whether the rest
      of the row is blocked. */
  lemma RowBlockedWrite(i: int, row: seq<string>, j: nat, b: Grid, b': Grid, c: Cell)
    requires IsGrid(b) && InRange(i, j) && j < |row| && b[i][j] == Empty && Written(b, b', i, j, c)
    ensures RowBlocked(i, row, j, b) <==> RowBlocked(i, row, j + 1, b')
  {
    if RowBlocked(i, row, j, b) {
      var y :| j <= y < |row| && TokenPlayer(row[y]).Some? && InRange(i, y) && b[i][y] != Empty;
      assert b'[i][y] == b[i][y];
      assert RowBlocked(i, row, j + 1, b');
    }
    if RowBlocked(i, row, j + 1, b') {
      var y :| j + 1 <= y < |row| && TokenPlayer(row[y]).Some? && InRange(i, y) && b'[i][y] != Empty;
      assert b'[i][y] == b[i][y];
      assert RowBlocked(i, row, j, b);
    }
  }

  /** A row throws exactly when one of its tokens asks for a marked cell,
      and what it throws is `CellTaken`. */
  lemma {:induction false} PlayRowThrows(e: Engine, g: Game, i: nat, row: seq<string>, j: nat)
    requires Valid(g) && RowFits(i, row, j)
    ensures PlayRow(e, g, i, row, j).thrown.Some? <==> RowBlocked(i, row, j, g.board)
    ensures PlayRow(e, g, i, row, j).thrown.Some? ==> PlayRow(e, g, i, row, j).thrown == Some(CellTaken)
    decreases |row| - j
  {
    if j < |row| {
      match TokenPlayer(row[j])
      case None =>
        PlayRowThrows(e, g, i, row, j + 1);
        RowBlockedSkip(i, row, j, g.board);
      case Some(p) =>
        var a := Accept(e, g, i, j, p);
        if a.Failure? {
          assert RowBlocked(i, row, j, g.board);
        } else {
          PlayRowThrows(e, a.value, i, row, j + 1);
          RowBlockedWrite(i, row, j, g.board, a.value.board, Symbol(Recorded(e, p)));
        }
    }
  }

  /** A row that throws nothing leaves the targets of the later rows as
      they were, so they are free afterwards exactly when they were free
      before. */
  lemma LaterTargetsUnchanged(e: Engine, rows: seq<seq<string>>, i: nat, b: Grid, b1: Grid)
    requires IsGrid(b) && IsGrid(b1) && i < |rows|
    requires RowApplied(e, i, rows[i], 0, b, b1)
    ensures TargetsFree(e, rows, i + 1, b1) <==> TargetsFree(e, rows, i + 1, b)
  {
    forall x, y | 0 <= x < Size && 0 <= y < Size && x >= i + 1
      ensures b1[x][y] == b[x][y]
    {
      assert b1[x][y] == RowCell(e, i, rows[i], 0, b, x, y);
    }
  }

  /** The targets of rows `i` on are free exactly when row `i` is not
      blocked and the targets of the later rows are free. */
  lemma TargetsFreeSplit(e: Engine, rows: seq<seq<string>>, i: nat, b: Grid)
    requires IsGrid(b) && i < |rows|
    ensures TargetsFree(e, rows, i, b) <==> !RowBlocked(i, rows[i], 0, b) && TargetsFree(e, rows, i + 1, b)
  {
    if RowBlocked(i, rows[i], 0, b) {
      var y :| 0 <= y < |rows[i]| && TokenPlayer(rows[i][y]).Some? && InRange(i, y) && b[i][y] != Empty;
      assert Requested(e, rows, i, y).Some?;
    }
  }

  /** Playing rows `i` on throws exactly when some recognised token asks
      for a cell already marked before the call, and what it throws is
      `CellTaken`. */
  lemma {:induction false} PlayRowsThrows(e: Engine, g: Game, rows: seq<seq<string>>, i: nat)
    requires Valid(g) && Fits(rows, i)
    ensures PlayRows(e, g, rows, i).thrown.Some? <==> !TargetsFree(e, rows, i, g.board)
    ensures PlayRows(e, g, rows, i).thrown.Some? ==> PlayRows(e, g, rows, i).thrown == Some(CellTaken)
    decreases |rows| - i
  {
    if i < |rows| {
      var row := rows[i];
      assert RowFits(i, row, 0);
      PlayRowThrows(e, g, i, row, 0);
      TargetsFreeSplit(e, rows, i, g.board);
      var r := PlayRow(e, g, i, row, 0);
      if r.thrown.None? {
        PlayRowBoard(e, g, i, row, 0);
        LaterTargetsUnchanged(e, rows, i, g.board, r.game.board);
        PlayRowsThrows(e, r.game, rows, i + 1);
      }
    }
  }

  /** `withBoardState` throws exactly when some recognised token asks for a
      cell already marked on the builder's board, under either engine, and
      what it throws is `CellTaken`. */
  lemma WithBoardStateThrows(b: Builder, state: string)
    requires Valid(b.game) && Fits(Layout(state), 0)
    ensures WithBoardState(b, state).thrown.Some? <==> !TargetsFree(AsWritten, Layout(state), 0, b.game.board)
    ensures WithBoardStateCorrected(b, state).thrown.Some? <==> !TargetsFree(Corrected, Layout(state), 0, b.game.board)
    ensures WithBoardState(b, state).thrown.Some? ==> WithBoardState(b, state).thrown == Some(CellTaken)
    ensures WithBoardStateCorrected(b, state).thrown.Some? ==> WithBoardStateCorrected(b, state).thrown == Some(CellTaken)
  {
    PlayRowsThrows(AsWritten, b.game, Layout(state), 0);
    PlayRowsThrows(Corrected, b.game, Layout(state), 0);
  }
  // ---------------------------------------------------------------------------
  // The requested moves

  /** Position `(x, y)` of the layout holds one of the two symbols. */
  predicate Recognised(rows: seq<seq<string>>, x: int, y: int) {
    0 <= x < |rows| && 0 <= y < |rows[x]| && TokenPlayer(rows[x][y]).Some?
  }

  /** `m` comes before `n` in row-major order. */
  predicate Before(m: Move, n: Move) {
    m.x < n.x || (m.x == n.x && m.y < n.y)
  }

  /** The moves are in strictly increasing row-major order. */
  predicate RowMajor(ms: seq<Move>) {
    forall k, l :: 0 <= k < l < |ms| ==> Before(ms[k], ms[l])
  }

  /** Each move is at a recognised position from row `i` on, for the player
      whose symbol the token there is. */
  predicate AtTokens(rows: seq<seq<string>>, i: int, ms: seq<Move>) {
    forall k :: 0 <= k < |ms| ==>
      ms[k].x >= i && Recognised(rows, ms[k].x, ms[k].y) &&
      TokenPlayer(rows[ms[k].x][ms[k].y]) == Some(ms[k].turn)
  }

  /** Some move is at `(x, y)`. */
  predicate MovedAt(ms: seq<Move>, x: int, y: int) {
    exists k :: 0 <= k < |ms| && ms[k].x == x && ms[k].y == y
  }

  /** The requests of row `i` are recognised tokens of that row from column
      `j` on, each for its token's player. */
  lemma {:induction false} RowRequestsAt(rows: seq<seq<string>>, i: nat, j: nat)
    requires i < |rows|
    ensures AtTokens(rows, i, RowRequests(i, rows[i], j))
    ensures forall k :: 0 <= k < |RowRequests(i, rows[i], j)| ==>
              RowRequests(i, rows[i], j)[k].x == i && j <= RowRequests(i, rows[i], j)[k].y
    decreases |rows[i]| - j
  {
    if j < |rows[i]| {
      RowRequestsAt(rows, i, j + 1);
      var rest := RowRequests(i, rows[i], j + 1);
      var rs := RowRequests(i, rows[i], j);
      if TokenPlayer(rows[i][j]).Some? {
        assert rs == [Move(TokenPlayer(rows[i][j]).value, i, j)] + rest;
        assert forall k :: 1 <= k < |rs| ==> rs[k] == rest[k - 1];
      } else {
        assert rs == rest;
      }
    }
  }

  /** The requests of a row run strictly left to right. */
  lemma {:induction false} RowRequestsOrdered(rows: seq<seq<string>>, i: nat, j: nat)
    requires i < |rows|
    ensures RowMajor(RowRequests(i, rows[i], j))
    decreases |rows[i]| - j
  {
    if j < |rows[i]| {
      RowRequestsOrdered(rows, i, j + 1);
      RowRequestsAt(rows, i, j + 1);
      var rest := RowRequests(i, rows[i], j + 1);
      var rs := RowRequests(i, rows[i], j);
      if TokenPlayer(rows[i][j]).Some? {
        assert rs == [Move(TokenPlayer(rows[i][j]).value, i, j)] + rest;
        assert forall k :: 1 <= k < |rs| ==> rs[k] == rest[k - 1];
      } else {
        assert rs == rest;
      }
    }
  }

  /** Every recognised token of a row from column `j` on is requested. */
  lemma {:induction false} RowRequestsComplete(i: nat, row: seq<string>, j: nat, y: int)
    requires j <= y < |row| && TokenPlayer(row[y]).Some?
    ensures MovedAt(RowRequests(i, row, j), i, y)
    decreases |row| - j
  {
    var rs := RowRequests(i, row, j);
    var rest := RowRequests(i, row, j + 1);
    if TokenPlayer(row[j]).Some? {
      assert rs == [Move(TokenPlayer(row[j]).value, i, j)] + rest;
      if y == j {
        assert rs[0].x == i && rs[0].y == y;
      } else {
        RowRequestsComplete(i, row, j + 1, y);
        var k :| 0 <= k < |rest| && rest[k].x == i && rest[k].y == y;
        assert rs[k + 1] == rest[k];
      }
    } else {
      assert rs == rest;
      RowRequestsComplete(i, row, j + 1, y);
    }
  }

  /** The requests of a layout are recognised tokens from row `i` on, each
      for its token's player, in strictly increasing row-major order. */
  lemma {:induction false} RequestsSound(rows: seq<seq<string>>, i: nat)
    ensures AtTokens(rows, i, Requests(rows, i))
    ensures RowMajor(Requests(rows, i))
    decreases |rows| - i
  {
    if i < |rows| {
      RequestsSound(rows, i + 1);
      RowRequestsAt(rows, i, 0);
      RowRequestsOrdered(rows, i, 0);
      var mine := RowRequests(i, rows[i], 0);
      var later := Requests(rows, i + 1);
      var rs := Requests(rows, i);
      assert rs == mine + later;
      assert forall k :: 0 <= k < |mine| ==> rs[k] == mine[k];
      assert forall k :: |mine| <= k < |rs| ==> rs[k] == later[k - |mine|];
    }
  }

  /** Every recognised token from row `i` on is requested. */
  lemma {:induction false} RequestsComplete(rows: seq<seq<string>>, i: nat, x: int, y: int)
    requires i <= x && Recognised(rows, x, y)
    ensures MovedAt(Requests(rows, i), x, y)
    decreases |rows| - i
  {
    var mine := RowRequests(i, rows[i], 0);
    var later := Requests(rows, i + 1);
    var rs := Requests(rows, i);
    assert rs == mine + later;
    if x == i {
      RowRequestsComplete(i, rows[i], 0, y);
      var k :| 0 <= k < |mine| && mine[k].x == x && mine[k].y == y;
      assert rs[k] == mine[k];
    } else {
      RequestsComplete(rows, i + 1, x, y);
      var k :| 0 <= k < |later| && later[k].x == x && later[k].y == y;
      assert rs[k + |mine|] == later[k];
    }
  }

  // ---------------------------------------------------------------------------
  // Building from a fresh builder

  /** `withBoardState` on a fresh builder, as written: a layout whose
      recognised tokens lie on the board never raises `cell is already
      taken`; every recognised token, the computer's symbol included, puts the
      USER's symbol in its cell and appends a USER entry; other cells stay
      empty. */
  lemma WithBoardStateOnFreshBuilder(state: string)
    requires Fits(Layout(state), 0)
    ensures var c := WithBoardState(NewBuilder(), state);
            var rows := Layout(state);
            var rs := Requests(rows, 0);
            && c.thrown.None?
            && |Build(c.builder).history| == |rs|
            && (forall k :: 0 <= k < |rs| ==> Build(c.builder).history[k] == Move(User, rs[k].x, rs[k].y))
            && (forall x, y :: 0 <= x < Size && 0 <= y < Size ==>
                  Build(c.builder).board[x][y] == (if Recognised(rows, x, y) then UserMark else Empty))
  {
    var rows := Layout(state);
    FreshLayoutEffect(AsWritten, rows);
    AsRecordedEntries(AsWritten, Requests(rows, 0));
  }

  /** `withBoardState` on a fresh builder with each token's symbol honoured:
      the history is exactly the requested moves and each recognised cell
      holds its token's symbol. */
  lemma WithBoardStateCorrectedOnFreshBuilder(state: string)
    requires Fits(Layout(state), 0)
    ensures var c := WithBoardStateCorrected(NewBuilder(), state);
            var rows := Layout(state);
            && c.thrown.None?
            && Build(c.builder).history == Requests(rows, 0)
            && (forall x, y :: 0 <= x < Size && 0 <= y < Size ==>
                  Build(c.builder).board[x][y] ==
                    (if Recognised(rows, x, y) then Symbol(TokenPlayer(rows[x][y]).value) else Empty))
  {
    var rows := Layout(state);
    FreshLayoutEffect(Corrected, rows);
    var rs := Requests(rows, 0);
    AsRecordedEntries(Corrected, rs);
    assert AsRecorded(Corrected, rs) == rs;
  }

  /** A single computer token, as written, is recorded as a user move and
      shown as the user's symbol. */
  lemma ComputerTokenBecomesUserMove(o: string)
    requires TokenPlayer(o) == Some(Computer)
    ensures Layout(o) == [[o]]
    ensures var c := WithBoardState(NewBuilder(), o);
            && c.thrown.None?
            && Build(c.builder).history == [Move(User, 0, 0)]
            && Build(c.builder).board[0][0] == UserMark
  {
    LayoutOfSymbol(o);
    SymbolRequests(o);
    WithBoardStateOnFreshBuilder(o);
    var h := Build(WithBoardState(NewBuilder(), o).builder).history;
    assert |h| == 1 && h[0] == Move(User, 0, 0);
    assert Recognised([[o]], 0, 0);
  }

  /** A layout of one symbol requests one move, in the top-left cell. */
  lemma SymbolRequests(o: string)
    requires TokenPlayer(o).Some?
    ensures Requests([[o]], 0) == [Move(TokenPlayer(o).value, 0, 0)]
  {
    var rows := [[o]];
    assert RowRequests(0, rows[0], 1) == [];
    assert RowRequests(0, rows[0], 0) == [Move(TokenPlayer(o).value, 0, 0)];
    assert Requests(rows, 1) == [];
  }

  /** A layout of one symbol is one row of one token. */
  lemma LayoutOfSymbol(o: string)
    requires o == CellText(UserMark) || o == CellText(ComputerMark)
    ensures Layout(o) == [[o]]
  {
    assert '\n' !in o && ' ' !in o && !IsSpace(o[0]);
    assert Join([o], '\n') == o;
    LayoutOfLines([o]);
    TrimKeepsTrimmed(o);
    assert Split(o, ' ') == [o];
    assert TokenRows([o])[0] == [o];
  }

  // ---------------------------------------------------------------------------
  // Writing a board as a layout and reading it back

  /** The token a cell is written as: `.` for an empty cell, the player's
      symbol otherwise. */
  function TokenOf(c: Cell): (t: string)
    ensures |t| == 1 && !IsSpace(t[0])
    ensures TokenPlayer(t).Some? <==> c != Empty
    ensures c != Empty ==> Symbol(TokenPlayer(t).value) == c
  {
    if c == Empty then "." else CellText(c)
  }

  /** A row of the board as a layout line: tokens separated by single spaces. */
  function RenderRow(row: seq<Cell>): string
    requires |row| == Size
  {
    Join([TokenOf(row[0]), TokenOf(row[1]), TokenOf(row[2])], ' ')
  }

  /** The board as a layout: one line per row. */
  function Render(b: Grid): string
    requires IsGrid(b)
  {
    Join([RenderRow(b[0]), RenderRow(b[1]), RenderRow(b[2])], '\n')
  }

  /** The token grid a board is written as. */
  function TokenGrid(b: Grid): (rows: seq<seq<string>>)
    requires IsGrid(b)
    ensures |rows| == Size && forall i :: 0 <= i < Size ==> |rows[i]| == Size
    ensures forall i, j :: 0 <= i < Size && 0 <= j < Size ==> rows[i][j] == TokenOf(b[i][j])
  {
    seq(Size, i requires 0 <= i < Size => seq(Size, j requires 0 <= j < Size => TokenOf(b[i][j])))
  }

  /** A rendered row is one line, trims to itself and splits into its three
      tokens. */
  lemma TokensOfRenderRow(row: seq<Cell>)
    requires |row| == Size
    ensures '\n' !in RenderRow(row)
    ensures !Blank(RenderRow(row))
    ensures Tokens(RenderRow(row)) == [TokenOf(row[0]), TokenOf(row[1]), TokenOf(row[2])]
  {
    var parts := [TokenOf(row[0]), TokenOf(row[1]), TokenOf(row[2])];
    var line := RenderRow(row);
    JoinThree(parts[0], parts[1], parts[2], ' ');
    JoinAvoids(parts, ' ', '\n');
    assert line[0] == parts[0][0];
    assert line[|line| - 1] == parts[2][0];
    TrimKeepsTrimmed(line);
    assert forall k :: 0 <= k < |parts| ==> ' ' !in parts[k];
    SplitJoin(parts, ' ');
  }

  /** Lines that hold no line feed and are not blank parse to their tokens,
      one row per line. */
  lemma LayoutOfLines(lines: seq<string>)
    requires |lines| >= 1
    requires forall k :: 0 <= k < |lines| ==> '\n' !in lines[k] && !Blank(lines[k])
    ensures Layout(Join(lines, '\n')) == TokenRows(lines)
  {
    SplitJoin(lines, '\n');
    NonBlankKeepsAll(lines);
  }

  /** Three such lines parse to their three token rows. */
  lemma LayoutOfThree(a: string, b: string, c: string)
    requires '\n' !in a && '\n' !in b && '\n' !in c
    requires !Blank(a) && !Blank(b) && !Blank(c)
    ensures Layout(Join([a, b, c], '\n')) == [Tokens(a), Tokens(b), Tokens(c)]
  {
    var lines := [a, b, c];
    assert forall k :: 0 <= k < |lines| ==> lines[k] == a || lines[k] == b || lines[k] == c;
    LayoutOfLines(lines);
    ThreeElements(TokenRows(lines), Tokens(a), Tokens(b), Tokens(c));
  }

  /** A sequence of length three is the display of its elements. */
  lemma ThreeElements<T>(s: seq<T>, x: T, y: T, z: T)
    requires |s| == 3 && s[0] == x && s[1] == y && s[2] == z
    ensures s == [x, y, z]
  {
  }

  /** Parsing the rendering of a board gives back its token grid. */
  lemma LayoutOfRender(b: Grid)
    requires IsGrid(b)
    ensures Layout(Render(b)) == TokenGrid(b)
  {
    var r0, r1, r2 := RenderRow(b[0]), RenderRow(b[1]), RenderRow(b[2]);
    TokensOfRenderRow(b[0]);
    TokensOfRenderRow(b[1]);
    TokensOfRenderRow(b[2]);
    LayoutOfThree(r0, r1, r2);
    var g := TokenGrid(b);
    ThreeElements(g[0], TokenOf(b[0][0]), TokenOf(b[0][1]), TokenOf(b[0][2]));
    ThreeElements(g[1], TokenOf(b[1][0]), TokenOf(b[1][1]), TokenOf(b[1][2]));
    ThreeElements(g[2], TokenOf(b[2][0]), TokenOf(b[2][1]), TokenOf(b[2][2]));
    ThreeElements(g, Tokens(r0), Tokens(r1), Tokens(r2));
  }

  /** The token grid of a board fits on the board, and its recognised
      positions are exactly the occupied cells, each holding its token's
      symbol. */
  lemma TokenGridCells(b: Grid)
    requires IsGrid(b)
    ensures Fits(TokenGrid(b), 0)
    ensures forall x, y :: 0 <= x < Size && 0 <= y < Size ==>
              (Recognised(TokenGrid(b), x, y) <==> b[x][y] != Empty)
    ensures forall x, y :: 0 <= x < Size && 0 <= y < Size && Recognised(TokenGrid(b), x, y) ==>
              Symbol(TokenPlayer(TokenGrid(b)[x][y]).value) == b[x][y]
  {
  }

  /** Two boards that agree on every cell are equal. */
  lemma SameCells(b: Grid, b': Grid)
    requires IsGrid(b) && IsGrid(b')
    requires forall x, y :: 0 <= x < Size && 0 <= y < Size ==> b[x][y] == b'[x][y]
    ensures b == b'
  {
    assert forall x :: 0 <= x < Size ==> b[x] == b'[x];
  }

  /** With each token's symbol honoured, a layout that parses to a board's
      token grid rebuilds that board on a fresh builder. */
  lemma CorrectedRebuild(state: string, b: Grid)
    requires IsGrid(b) && Layout(state) == TokenGrid(b)
    ensures Fits(Layout(state), 0)
    ensures var c := WithBoardStateCorrected(NewBuilder(), state);
            c.thrown.None? && Build(c.builder).board == b
  {
    TokenGridCells(b);
    WithBoardStateCorrectedOnFreshBuilder(state);
    BoardFromTokens(b, Build(WithBoardStateCorrected(NewBuilder(), state).builder).board);
  }

  /** A board whose recognised positions of `b`'s token grid hold their
      tokens' symbols, and whose other cells are empty, is `b`. */
  lemma BoardFromTokens(b: Grid, board: Grid)
    requires IsGrid(b) && IsGrid(board)
    requires forall x, y :: 0 <= x < Size && 0 <= y < Size ==>
               board[x][y] == (if Recognised(TokenGrid(b), x, y)
                               then Symbol(TokenPlayer(TokenGrid(b)[x][y]).value) else Empty)
    ensures board == b
  {
    TokenGridCells(b);
    SameCells(board, b);
  }

  /** A board whose recognised positions of `b`'s token grid hold the user's
      symbol, and whose other cells are empty, is `AllUser(b)`. */
  lemma AllUserFromTokens(b: Grid, board: Grid)
    requires IsGrid(b) && IsGrid(board)
    requires forall x, y :: 0 <= x < Size && 0 <= y < Size ==>
               board[x][y] == (if Recognised(TokenGrid(b), x, y) then UserMark else Empty)
    ensures board == AllUser(b)
  {
    TokenGridCells(b);
    SameCells(board, AllUser(b));
  }

  /** The board `b` with every occupied cell showing the user's symbol. */
  function AllUser(b: Grid): (u: Grid)
    requires IsGrid(b)
    ensures IsGrid(u)
    ensures forall x, y :: 0 <= x < Size && 0 <= y < Size ==>
              u[x][y] == (if b[x][y] == Empty then Empty else UserMark)
  {
    seq(Size, x requires 0 <= x < Size =>
      seq(Size, y requires 0 <= y < Size => if b[x][y] == Empty then Empty else UserMark))
  }

  /** Turning every symbol into the user's leaves a board unchanged exactly
      when it holds no computer symbol. */
  lemma AllUserFixed(b: Grid)
    requires IsGrid(b)
    ensures AllUser(b) == b <==> forall x, y :: 0 <= x < Size && 0 <= y < Size ==> b[x][y] != ComputerMark
  {
    if forall x, y :: 0 <= x < Size && 0 <= y < Size ==> b[x][y] != ComputerMark {
      SameCells(AllUser(b), b);
    }
  }

  /** As written, a layout that parses to a board's token grid rebuilds the
      board with every symbol turned into the user's. */
  lemma AsWrittenRebuild(state: string, b: Grid)
    requires IsGrid(b) && Layout(state) == TokenGrid(b)
    ensures Fits(Layout(state), 0)
    ensures var c := WithBoardState(NewBuilder(), state);
            c.thrown.None? && Build(c.builder).board == AllUser(b)
  {
    TokenGridCells(b);
    WithBoardStateOnFreshBuilder(state);
    AllUserFromTokens(b, Build(WithBoardState(NewBuilder(), state).builder).board);
  }

  /** With each token's symbol honoured, writing a board as a layout and
      building from it on a fresh builder reproduces the board. */
  lemma CorrectedRoundTrip(b: Grid)
    requires IsGrid(b)
    ensures Fits(Layout(Render(b)), 0)
    ensures var c := WithBoardStateCorrected(NewBuilder(), Render(b));
            c.thrown.None? && Build(c.builder).board == b
  {
    LayoutOfRender(b);
    CorrectedRebuild(Render(b), b);
  }

  /** As written, building from the rendering of a board turns every
      computer symbol into a user symbol, so the board comes back unchanged
      exactly when it held no computer symbol. */
  lemma AsWrittenRoundTrip(b: Grid)
    requires IsGrid(b)
    ensures Fits(Layout(Render(b)), 0)
    ensures var c := WithBoardState(NewBuilder(), Render(b));
            && c.thrown.None?
            && Build(c.builder).board == AllUser(b)
            && (Build(c.builder).board == b <==>
                  forall x, y :: 0 <= x < Size && 0 <= y < Size ==> b[x][y] != ComputerMark)
  {
    LayoutOfRender(b);
    AsWrittenRebuild(Render(b), b);
    AllUserFixed(b);
  }
}
