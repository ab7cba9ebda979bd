# Tic-tac-toe engine and layout builder

A Dafny model of a small tic-tac-toe game. The user plays against the
computer on a 3×3 board.

- `src/Game.js` holds the engine. It keeps a board of cells and an append-only
  move history. It accepts the user's move and refuses occupied cells. It
  makes the computer's move: it throws on a full board, blocks a row where the
  user holds two cells with the third free, and otherwise plays a random free
  cell. It detects a winner across rows, columns and diagonals and reports the
  game's status.
- `test/GameBuilder.js` is the builder the tests use to set up positions. It
  takes a textual layout, one line per row and one space-separated token per
  cell. It plays one move for every token that is a player's symbol.

The model is functional. A `Game` is an immutable record of board and
history. Every operation returns the next state. An engine exception is a
`Failure` that is raised before anything is written. In the builder, an
exception is the `thrown` field of `Chained`, and the moves made before it
stay in the game.

Files:

- `wrappers.dfy`: the `Option` and `Result` types.
- `board.dfy` (module `Board`):
  - the cells and the two players;
  - the cell counts;
  - the eight lines;
  - the single-cell write.
- `game.dfy` (module `GameEngine`): the engine, and the consistency of board
  and history over a game played from the empty board.
- `text.dfy` (module `Text`): the two JavaScript string operations the
  builder relies on, `split` with a one-character separator and `trim`.
- `builder.dfy` (module `GameBuilder`):
  - the layout parser;
  - the builder as written, and a corrected builder that honours each token's
    symbol;
  - what each builder does with a layout;
  - round trips from a rendered board back to that board.

## Model

| member | source | states |
|---|---|---|
| GameEngine.NewGame | src/Game.js:6-14 | A new game has an empty history. Its board is the supplied board, or three rows of three empty cells when none is supplied. |
| GameEngine.Clear | src/Game.js:28-31 | Clearing returns the fresh game whatever the prior state, with all nine cells free. |
| GameEngine.GetSize | src/Game.js:20-22 | The size is the number of rows and the length of every row. |
| GameEngine.Place | src/Game.js:138-145 | The history gains exactly one entry, for that player at those coordinates. The named cell takes the player's symbol, and every other cell keeps its value. |
| GameEngine.TurnName | src/Game.js:143-145 | A history entry's `turn` is the user's name exactly for the user. Handing the recorded name back to `_getSymbolForPlayer` gives that player's own symbol. |
| GameEngine.AcceptUserMove | src/Game.js:33-39 | The move fails with "cell is already taken" exactly when the cell is occupied. On success only that cell changes, and it takes the user's symbol. On success the history gains exactly one user entry, with those coordinates. |
| GameEngine.AcceptMove | test/GameBuilder.js:17-18 | The three-argument move the builder calls for. It fails exactly on an occupied cell. Otherwise it writes the given player's symbol there and appends that player's entry. |
| GameEngine.AcceptUserMoveIsUserCase | src/Game.js:33-39 | The engine's user move is the three-argument move with the user as player. |
| GameEngine.FindIndex | src/Game.js:105-108 | `findIndex` returns the first position whose element satisfies the predicate. It returns none exactly when no element does. |
| GameEngine.IsThreatRow | src/Game.js:98-101 | A row threatens exactly when it holds two user symbols and one empty cell. A threatening 3-cell row holds no computer symbol. |
| GameEngine.UserWillWinNextMove | src/Game.js:93-96 | `some` over the rows agrees with `findIndex` over them: a threat exists exactly when `findIndex` finds a threat row, so the blocking search at line 105 finds one. |
| GameEngine.CoordinatesToPreventUserWin | src/Game.js:93-118 | It succeeds exactly when some row holds two user symbols and one empty cell. It then returns the empty cell of the topmost such row. The failure it can reach is the no-threat-row error. |
| GameEngine.BlockingCellUnique | src/Game.js:103-118 | At most one cell is the blocking cell, so the rule is deterministic. |
| GameEngine.CreateComputerMoveWith | src/Game.js:41-54 | The move fails with "no cells available" exactly when the board is full. Otherwise it writes the computer's symbol into one previously free cell and changes nothing else. It appends one computer entry for that cell, and the free count drops by one. The cell is the blocking cell when a row threatens, and the random pick otherwise. |
| GameEngine.PlaceIsComputerMove | src/Game.js:50-53 | Recording and writing the computer's symbol into a free cell is one computer move, and it uses up one free cell. |
| GameEngine.FreeRandomCoordinates | src/Game.js:120-130 | The coordinates returned lie on the board and name a free cell. |
| GameEngine.CreateComputerMove | src/Game.js:41-54 | The same outcome with the random choice left open. It fails exactly on a full board; otherwise it makes one computer move into a free cell, and blocks whenever a row threatens. |
| GameEngine.BlockedRowCounts | src/Game.js:99-100 | Filling the free cell of a threat row leaves two user symbols, one computer symbol and no free cell in that row. |
| GameEngine.BlockingNeutralisesRow | src/Game.js:45-48 | When a row threatens, the computer's move succeeds. The row it plays in then holds two user symbols and one computer symbol, so the user can no longer complete it. |
| GameEngine.SymbolFor | src/Game.js:82-86 | The symbol is never empty. It is the user's symbol exactly for the user's name; any other name gets the computer's symbol. |
| GameEngine.IsWinner | src/Game.js:56-73 | A player wins exactly when one of the eight reference lines is entirely that player's symbol. |
| GameEngine.LinesAreRowsColumnsDiagonals | src/Game.js:61-68 | The eight reference lines are exactly the three rows, three columns and two diagonals that `isWinner` tests. |
| GameEngine.WinnerHasStraightLine | src/Game.js:56-73 | A player wins exactly when the board has three of their symbol in a row, stated by quantifiers: some full row, some full column, or either full diagonal. |
| GameEngine.SomeRowFull | src/Game.js:61-62 | Some row is entirely the symbol exactly when one of the three rows `isWinner` tests is. |
| GameEngine.SomeColumnFull | src/Game.js:64-65 | Some column is entirely the symbol exactly when one of the three columns `isWinner` tests is. |
| GameEngine.CheckGame | src/Game.js:75-80 | Four outcomes, each stated in both directions. A user line means the user won. Otherwise a computer line means the computer won. Otherwise a full board is a draw, and anything else continues. |
| GameEngine.Message | src/Game.js:76-79 | "continue" is reported exactly while play continues. A message ends in " won!" exactly for a win. It starts with the user's name exactly when the user won. |
| GameEngine.MessagesDistinct | src/Game.js:76-79 | Different outcomes are reported by different strings. |
| GameEngine.FreshGameConsistent | src/Game.js:6-14 | A fresh game and a cleared game are consistent: the history accounts for every occupied cell. |
| GameEngine.PlaceKeepsEntriesShown | src/Game.js:138-145 | After a free cell is written, every history entry still names a cell showing its player's symbol. |
| GameEngine.PlaceKeepsDistinct | src/Game.js:138-145 | After a free cell is written, no two history entries name the same cell. |
| GameEngine.PlacePreservesConsistency | src/Game.js:138-145 | Writing a free cell and recording it keeps board and history consistent. |
| GameEngine.AcceptPreservesConsistency | src/Game.js:33-39 | An accepted user move keeps the game consistent. |
| GameEngine.ComputerMovePreservesConsistency | src/Game.js:41-54 | A computer move keeps the game consistent. |
| GameEngine.FullBoardMeansNineMoves | src/Game.js:132-136 | In a consistent game the board is full exactly when nine moves have been made. |
| Board.UpdateBoard | src/Game.js:138-141 | The write sets the one named cell to the given symbol and leaves every other cell as it was. |
| Board.IsFree | src/Game.js:147-149 | A cell is free exactly when its value is the empty string, the one cell value JavaScript treats as false. |
| Board.CellText | src/Game.js:147-149 | Only the empty cell is the empty string, the value `_isCellFree` treats as free. |
| Board.Count | src/Game.js:99-100 | The `reduce` count of a row equals the number of occurrences of the value in the row. |
| Board.FreeCount | src/Game.js:132-136 | The free-cell count is zero exactly when no cell is empty. |
| Board.RowCountAfterWrite | src/Game.js:132-141 | Writing a mark into an empty cell of a row lowers that row's count of empty cells by exactly one. |
| Board.FreeCountAfterWrite | src/Game.js:132-141 | Writing a symbol into an empty cell lowers the free-cell count by exactly one. |
| Text.SkipSpace | test/GameBuilder.js:12-13 | It returns the end of the white-space run starting at the given index. |
| Text.BackSpace | test/GameBuilder.js:12-13 | It returns the start of the white-space run ending at the given index. |
| Text.Trim | test/GameBuilder.js:12-13 | A trimmed string is empty, or begins and ends with a character that is not white space. |
| Text.TrimCutsOnlySpace | test/GameBuilder.js:12-13 | The trimmed string is a contiguous part of the input. Only white space lies before and after it. |
| Text.TrimEmptyIffBlank | test/GameBuilder.js:12 | A line trims to the empty string exactly when it is all white space. |
| Text.TrimKeepsTrimmed | test/GameBuilder.js:13 | Trimming a string with no white space at either end returns it unchanged. |
| Text.IndexOf | test/GameBuilder.js:11 | It returns the first occurrence of the character. |
| Text.Split | test/GameBuilder.js:11 | Splitting yields at least one piece, and no piece contains the separator. |
| Text.JoinSplit | test/GameBuilder.js:11 | Joining the pieces with the separator gives back the input. There is one more piece than there are separators. |
| Text.SplitJoin | test/GameBuilder.js:11 | Splitting a join of separator-free pieces gives back the pieces. |
| Text.JoinAvoids | test/GameBuilder.js:11 | A character absent from every piece, other than the separator, is absent from their join. |
| Text.JoinThree | test/GameBuilder.js:11 | Joining three pieces puts one separator between consecutive pieces. |
| Text.FirstPieceNonEmpty | test/GameBuilder.js:13 | The first piece is non-empty when the input does not start with the separator. |
| Text.LastPieceNonEmpty | test/GameBuilder.js:13 | The last piece is non-empty when the input does not end with the separator. |
| Text.AvoidsAppend | test/GameBuilder.js:11 | Two piece lists that avoid a character still avoid it once concatenated. |
| GameBuilder.NewBuilder | test/GameBuilder.js:5-7 | A new builder holds a 3×3 game with no moves and every cell empty. |
| GameBuilder.Build | test/GameBuilder.js:26-28 | `build` returns the builder's own game rather than a copy, so the moves the `withBoardState` calls made are in it. `WithBoardStateOnFreshBuilder` states the effect of one call on a new builder. `PlayRowsBoard` and `PlayRowsHistory` state the effect of a later call whose targets are still free. |
| GameBuilder.NonBlank | test/GameBuilder.js:12 | The filter keeps no blank line and never lengthens the list. |
| GameBuilder.NonBlankKeepsAll | test/GameBuilder.js:12 | With no blank line, the filter keeps every line. |
| GameBuilder.NonBlankAppend | test/GameBuilder.js:12 | Filtering a concatenation filters each part. |
| GameBuilder.BlankLineDropped | test/GameBuilder.js:12 | A blank line is dropped wherever it stands. |
| GameBuilder.BlankLinesIgnored | test/GameBuilder.js:10-13 | Inserting a blank line anywhere in a layout leaves the parsed rows unchanged. |
| GameBuilder.Tokens | test/GameBuilder.js:13 | A kept line yields at least one token, and no token contains a space. |
| GameBuilder.OuterTokensNonEmpty | test/GameBuilder.js:12-13 | In a non-blank line the first and last tokens are non-empty; only doubled inner spaces give empty tokens. |
| GameBuilder.TokenRows | test/GameBuilder.js:13 | There is one token row per kept line, and no token contains a space. |
| GameBuilder.Layout | test/GameBuilder.js:10-13 | There are at most one more parsed rows than the layout has line breaks, and no token contains a space. |
| GameBuilder.TokenPlayer | test/GameBuilder.js:17-18 | A token is recognised exactly when it is one of the two symbols, and then it is that player's symbol. |
| GameBuilder.Accept | test/GameBuilder.js:17-18 | As written, a recognised token's move is recorded for the user whatever the token. Corrected, it is recorded for the token's player. |
| GameBuilder.AsRecorded | test/GameBuilder.js:17-18 | One history entry results per requested move. |
| GameBuilder.AsRecordedEntries | test/GameBuilder.js:17-18 | Each entry keeps its request's coordinates. Its player is the user as written, and the token's player when corrected. |
| GameBuilder.AsRecordedAppend | test/GameBuilder.js:15-20 | The entries of two request lists in sequence are the two lists of entries in sequence. |
| GameBuilder.PlayRow | test/GameBuilder.js:16-19 | Playing one row leaves a well-formed game. `PlayRowThrows` states exactly when it throws. |
| GameBuilder.PlayRows | test/GameBuilder.js:15-20 | Playing the rows leaves a well-formed game. `PlayRowsThrows` states exactly when it throws. |
| GameBuilder.PlayRowBoard | test/GameBuilder.js:16-19 | When a row's targets are free, playing it throws nothing. It writes each recognised token's mark at its position and leaves other cells alone. |
| GameBuilder.PlayRowHistory | test/GameBuilder.js:16-19 | When a row's targets are free, the history gains exactly that row's requested moves, in column order. |
| GameBuilder.PlayRowsBoard | test/GameBuilder.js:15-20 | When all targets are free, playing the rows throws nothing and writes every recognised token's mark. |
| GameBuilder.PlayRowsHistory | test/GameBuilder.js:15-20 | When all targets are free, the history gains exactly the layout's requested moves, in row-major order. |
| GameBuilder.PlayRowThrows | test/GameBuilder.js:16-19 | Playing a row throws exactly when one of its recognised tokens asks for a cell that is already marked, and then it throws `CellTaken`. |
| GameBuilder.PlayRowsThrows | test/GameBuilder.js:15-20 | Playing the rows throws exactly when some recognised token asks for a cell that was marked before the call, and then it throws `CellTaken`. |
| GameBuilder.WithBoardStateThrows | test/GameBuilder.js:9-24 | Under either engine, `withBoardState` throws exactly when some recognised token asks for a cell already marked on the builder's board, and what it throws is `CellTaken`. |
| GameBuilder.FreshLayoutEffect | test/GameBuilder.js:15-20 | On a fresh game no token throws. The history is the recorded requests, and each cell shows its token's recorded mark or stays empty. |
| GameBuilder.RowRequestsAt | test/GameBuilder.js:16-18 | Every request of a row is at a recognised token of that row, for the token's player. |
| GameBuilder.RowRequestsOrdered | test/GameBuilder.js:16 | A row's requests are in strictly increasing column order. |
| GameBuilder.RowRequestsComplete | test/GameBuilder.js:16-18 | Every recognised token of a row yields a request at its position. |
| GameBuilder.RequestsSound | test/GameBuilder.js:15-18 | Every request is at a recognised token, for that token's player. Requests come in strict row-major order. |
| GameBuilder.RequestsComplete | test/GameBuilder.js:15-18 | Every recognised token yields a request at its position. |
| GameBuilder.WithBoardState | test/GameBuilder.js:9-24 | The builder keeps a well-formed game. `WithBoardStateThrows` states exactly when it throws. |
| GameBuilder.WithBoardStateOnFreshBuilder | test/GameBuilder.js:9-24 | On a new builder the layout throws nothing. There is one history entry per recognised token, each a user entry at the token's position. Every recognised position shows the user's symbol, whichever symbol the token was. |
| GameBuilder.WithBoardStateCorrected | test/GameBuilder.js:9-24 | The corrected builder keeps a well-formed game. `WithBoardStateThrows` states exactly when it throws. |
| GameBuilder.WithBoardStateCorrectedOnFreshBuilder | test/GameBuilder.js:9-24 | On a new builder the corrected layout throws nothing. The history is exactly the requested moves, and every recognised position shows its token's own symbol. |
| GameBuilder.ComputerTokenBecomesUserMove | test/GameBuilder.js:18 | The layout holding the single computer token parses to that one token. The builder as written records it as a user move at (0, 0) and writes the user's symbol there. |
| GameBuilder.SymbolRequests | test/GameBuilder.js:17-18 | A single recognised token requests one move, for its player, at (0, 0). |
| GameBuilder.LayoutOfSymbol | test/GameBuilder.js:10-13 | A layout that is just one symbol parses to one row holding that symbol. |
| GameBuilder.TokenOf | test/GameBuilder.js:17-18 | Every cell renders as a one-character token with no white space. The token is recognised exactly for an occupied cell, and then it names that cell's mark. |
| GameBuilder.TokenGrid | test/GameBuilder.js:13 | The rendered tokens form a 3×3 grid with each cell's token in place. |
| GameBuilder.TokensOfRenderRow | test/GameBuilder.js:12-13 | A rendered row has no line break and is not blank. It tokenises back to its three cell tokens. |
| GameBuilder.LayoutOfLines | test/GameBuilder.js:10-13 | Joining non-blank lines without breaks and parsing them gives each line's tokens, in order. |
| GameBuilder.LayoutOfThree | test/GameBuilder.js:10-13 | Three such lines parse to their three token rows. |
| GameBuilder.LayoutOfRender | test/GameBuilder.js:10-13 | Parsing a rendered board gives back its token grid. |
| GameBuilder.TokenGridCells | test/GameBuilder.js:17-18 | Every token of a board's grid lies on the board. A position is recognised exactly where the board is occupied, and its mark is the board's. |
| GameBuilder.BoardFromTokens | test/GameBuilder.js:17-18 | A board written from a grid's tokens, with each token's own symbol, is the original board. |
| GameBuilder.AllUserFromTokens | test/GameBuilder.js:17-18 | A board written from a grid's tokens, with the user's symbol for every token, is the original board with every mark turned into the user's. |
| GameBuilder.AllUser | test/GameBuilder.js:17-18 | Each occupied cell shows the user's symbol, and each empty cell stays empty. |
| GameBuilder.AllUserFixed | test/GameBuilder.js:17-18 | Turning every mark into the user's changes the board exactly when it holds a computer symbol. |
| GameBuilder.CorrectedRebuild | test/GameBuilder.js:9-24 | Any layout that parses to a board's token grid rebuilds, with the corrected builder, into that board. |
| GameBuilder.AsWrittenRebuild | test/GameBuilder.js:9-24 | Any such layout rebuilds, with the builder as written, into the board with every mark turned into the user's. |
| GameBuilder.CorrectedRoundTrip | test/GameBuilder.js:9-28 | Rendering a board and rebuilding it with the corrected builder throws nothing and gives back the board. |
| GameBuilder.AsWrittenRoundTrip | test/GameBuilder.js:9-28 | Rendering and rebuilding with the builder as written throws nothing. The result is the board with every mark turned into the user's. It equals the original exactly when the board holds no computer symbol. |

## Left out

- The DOM front end (`src/index.js`, `test/dom.js`) and the stub
  `src/game.js` are context, not engine logic.
- `Math.random` (src/Game.js:151-153) is not modelled. `CreateComputerMoveWith`
  takes the random pick as a parameter. `FreeRandomCoordinates` chooses any
  free cell nondeterministically instead of looping on random draws. Whether
  that loop terminates is therefore not modelled; it ends with probability
  one whenever a free cell exists, and it is only reached then.
- The source always draws the random pick, even when it is then overridden
  by the block. The model only uses it when no row threatens. The draw has no
  effect besides consuming randomness.
- Aliasing is not modelled. `getState` and `getMoveHistory` return the live
  board and history arrays, so callers could mutate them. In the model they
  are the `board` and `history` fields of an immutable `Game`. A board passed
  to the constructor is likewise not shared.
- The constructor treats any falsy argument as "no board". The model takes
  `Option<Grid>` and requires a supplied board to be 3×3.
- Out-of-range coordinates are excluded by precondition, both for moves and
  for layout tokens (`Fits`). In JavaScript they would read or write a
  missing row or grow a row.
- A history entry's `turn` is the player's name string. The model records a
  `Player`; `TurnName` gives the string.
- `src/const.js` is not part of this model. The symbols follow
  `test/game.js`: `'×'` for the user (written there in mis-decoded form at
  line 6), `'o'` for the computer (line 42) and the empty string for a free
  cell. The names are `'user'` and `'computer'` (lines 4-5).
- The engine has no win-now rule and no centre preference. It blocks
  threats in rows only and never inspects columns or diagonals; otherwise it
  plays at random. The model has exactly these rules.
- GameEngine.CoordinatesToPreventUserWin: its second internal error is kept
  in the body but not named in the contract. When a threat row exists, it
  has a free cell, so that error cannot occur.
- Exceptions thrown out of `withBoardState` are modelled as the `thrown`
  field of `Chained`. The moves made before the throw remain in the game, as
  they do on the JavaScript object.
- Strings are sequences of Unicode scalar values, while JavaScript strings
  are sequences of UTF-16 code units. The separators (`'\n'`, `' '`) and the
  white-space characters that trimming removes are all single code units
  outside the surrogate range. So splitting and trimming agree on every
  string the model can represent. A lone surrogate cannot be represented.

## Findings

| source | as written | input that shows it | evidently intended | confidence | as-written member | corrected member |
|---|---|---|---|---|---|---|
| test/GameBuilder.js:18 with src/Game.js:33-39 | Every symbol token triggers `acceptUserMove(i, j, symbol)`, which drops its third argument. A computer token `'o'` therefore becomes a user move and writes the user's symbol. | The layout `"o"`: the built game has the history `[user at (0,0)]` and `'×'` at (0,0). | Each token's own symbol is written and recorded for its player, so a rendered board rebuilds to itself. | not executed | GameBuilder.ComputerTokenBecomesUserMove, GameBuilder.AsWrittenRebuild | GameBuilder.WithBoardStateCorrected, GameBuilder.CorrectedRebuild |
