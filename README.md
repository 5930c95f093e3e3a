# mirror-gomuku brain core, in Dafny

This project models the core of a Gomoku "brain": a program that talks to a
game manager over a line-based text protocol. The modelled parts are:

- **`GameState`** (src/GameState.cpp): a 20 by 20 board of `Player` cells,
  the history of moves made with `play`, and the five-in-a-row win
  detection (`countDirection`, `checkWin`, `checkWinFor`, `getWinner`).
  - Module `Lines` states the win rule over the board's contents, a sequence
    of 400 cells.
  - Module `Board` holds the `GameState` class, whose board is an `array`.
    Each mutator is proved against a function on `State`, the pair of the
    board's contents and the history.
- **`Bot`** as src/Bot.cpp implements it (module `BotSession`): an `int`
  board whose side is set by `start`, checked move application, `takeback`,
  and the deterministic `chooseMove`.
- **The protocol text helpers of src/main.cpp** (modules `Text` and
  `MoveParser`): `trim`, `toUpper`, `splitCommand`, `parseMove` and
  `parseBoardLine`.
  - `parseMove` and `parseBoardLine` replace commas with spaces and then read
    with `std::istringstream >> int`, which is modelled exactly. That read
    skips C-locale whitespace, accepts an optional sign, needs at least one
    digit, and fails outside the 32-bit range.
  - src/CommandRouter.cpp:8-30 holds `trim`, `toUpper` and `splitCommand`
    with the same code as src/main.cpp:11-31, laid out differently. Both
    files use the single definition in `Text`.
- **`CommandRouter`** (module `CommandRouter`): the handler table and
  `process`. Handlers are modelled as identifiers. `process` returns which
  handler it would call, with which arguments, together with the output text.
- **`Response`** (module `Response`): the line each reply writes. Standard
  output is the text written so far. `std::to_string` is `Numerals.IntToString`.
- **`TimeManager`** (include/TimeManager.hpp, module `Timing`): one deadline
  on a monotone clock. The clock reading is passed in as a parameter.

Behaviours of the source that a reader might not expect, each modelled as
written:

- The `GameState` constructor ignores its size argument and always builds a
  20 by 20 board (src/GameState.cpp:4-7).
- With no history, `currentPlayer` returns One when both players have the
  same number of stones, and Two otherwise, even when Two has more stones
  (src/GameState.cpp:11-22).
- `GameState::isEmpty` is true off the board, because `playerAt` gives None
  there (src/GameState.cpp:28-41).
- The `Player` overload of `set` checks only the coordinates. Neither `set`
  overload updates the history (src/GameState.cpp:67-86), so the number of
  moves can differ from the number of stones.
- The `Bot` modelled is the one src/Bot.cpp implements, with `boardSize_`
  and an `int` board. include/Bot.hpp:33-49 declares other members
  (`boardSize()`, `gameState_`) that src/Bot.cpp does not use.
- `TimeManager::start` replaces a negative budget with zero
  (include/TimeManager.hpp:9-14).

## Model

| member | source | states |
|---|---|---|
| Text.SkipSpaces | src/main.cpp:13-14 | the first index at or after `i` that is not C-locale whitespace; everything skipped is whitespace |
| Text.TrimEnd | src/main.cpp:15 | the end of the text once trailing whitespace is removed; everything after it is whitespace and the character before it is not |
| Text.Trim | src/main.cpp:11-17 | the result is the contiguous slice starting at the first non-space character, followed only by whitespace, with no whitespace at either end |
| Text.TrimOfPadded | src/main.cpp:11-17 | whitespace on both sides of a text that does not start or end with whitespace is removed, and the text itself is kept exactly |
| Text.TrimDecompose | src/main.cpp:11-17 | the input is the leading whitespace, then the trimmed text, then the trailing whitespace |
| Text.TrimIdempotent | src/main.cpp:11-17 | trimming twice is trimming once |
| Text.TrimAllSpace | src/main.cpp:11-17 | an all-whitespace string trims to the empty string |
| Text.ToUpper | src/main.cpp:19-23 | same length; every a-z becomes its upper-case letter and every other character is unchanged |
| Text.ToUpperIdempotent | src/main.cpp:19-23 | upper-casing twice is upper-casing once |
| Text.ToUpperNoLower | src/main.cpp:19-23 | a text with no lower-case letter is unchanged |
| Text.FirstBlank | src/main.cpp:27 | `find_first_of(" \t")`: the first space or tab, with none before it, or the length when there is none |
| Text.SplitCommand | src/main.cpp:25-31 | the command is a prefix of the line holding no space or tab; without a blank the arguments are ""; otherwise the command ends at the first blank and the arguments are the trimmed rest |
| Text.SplitJoined | src/main.cpp:25-31 | a word, a space or tab, and any text split into the word and the trimmed text |
| Text.SplitWord | src/main.cpp:27-29 | a line without a space or tab splits into itself and "" |
| Numerals.NatToString | src/Response.cpp:11 | `std::to_string` of a natural number: at least one character, all decimal digits, no leading zero unless the number is 0 |
| Numerals.IntToString | src/Response.cpp:11 | `std::to_string` of an int: a minus sign followed by the digits of the magnitude for a negative number, otherwise the digits alone |
| Numerals.DigitsValueOfNatToString | src/Response.cpp:11 | the digits `to_string` writes have the value of the number written |
| Numerals.IntToStringChars | src/Response.cpp:11 | every character of `to_string(x)` is a digit, except a leading minus sign |
| MoveParser.Normalize | src/main.cpp:35-36 | every comma becomes a space; nothing else changes and the length is kept |
| MoveParser.ReadInt | src/main.cpp:41 | one `>> int` extraction: on success a 32-bit value, and the unread rest is shorter than the input and does not start with a digit |
| MoveParser.ParseMove | src/main.cpp:33-44 | a result exists only when two 32-bit integers can be read |
| MoveParser.ParseBoardLine | src/main.cpp:46-58 | a result exists only when three 32-bit integers can be read |
| MoveParser.BoardLineStartsWithMove | src/main.cpp:33-58 | a board line's x and y are what `parseMove` reads from the same text; when `parseMove` fails, `parseBoardLine` fails too |
| MoveParser.CommaActsAsSpace | src/main.cpp:33-58 | two texts that differ only by commas against spaces parse identically, for both parsers |
| MoveParser.ReadIntIgnoresRest | src/main.cpp:41 | text appended after a readable integer, that does not extend its digits, is left unread |
| MoveParser.ParseMoveIgnoresRest | src/main.cpp:39-43 | anything after the second integer that does not extend its digits leaves the result unchanged |
| MoveParser.ReadDigitsOfRun | src/main.cpp:41 | a digit run followed by a non-digit reads as the value of the run, with the rest unread |
| MoveParser.ReadSignedOfNumeral | src/main.cpp:41 | a 32-bit value written by `to_string` reads back as the same value |
| MoveParser.ReadIntOfNumeral | src/main.cpp:41 | the same after any leading whitespace |
| MoveParser.ParseMoveOfPair | src/main.cpp:33-44 | the text "x,y" parses to (x, y) for all 32-bit x and y |
| Response.Line | src/Response.cpp:9-59 | the text each public method passes to `send`: "x,y" from two `to_string`s, OK, ERROR, UNKNOWN, the ERROR/DEBUG/MESSAGE tag and a space before the message, the four `key="value"` fields of `about` separated by ", ", and raw text verbatim |
| Response.Send | src/Response.cpp:3-7 | the output after `send`: what was written before, then the line, then the newline of `std::endl` |
| Response.LineHasNoNewline | src/Response.cpp:9-59 | a reply whose arguments hold no newline writes a line without a newline |
| Response.AppendOneLine | src/Response.cpp:3-7 | appending a newline-free line and a newline keeps the earlier output and adds one newline, as the last character |
| Response.SendEmitsOneLine | src/Response.cpp:3-7 | `send` keeps what was written before, appends the line and one newline, and adds exactly one newline to the output |
| Response.MoveLineShape | src/Response.cpp:9-12 | a move line holds no whitespace, and its only comma directly follows the first coordinate |
| Response.MoveLineParses | src/Response.cpp:9-12 | `parseMove` of the line `move(x, y)` writes gives back (x, y) for 32-bit coordinates |
| Response.QuotedValuesOfField | src/Response.cpp:52-53 | one `key="value"` field contributes exactly its value to the quoted values |
| Response.AboutValues | src/Response.cpp:49-54 | the `about` line carries name, version, author and country verbatim, in that order, each between its own quotes |
| Response.ClassifyLine | src/Response.cpp:9-47 | the lines of `move`, `ok`, `error`, `error(m)`, `unknown`, `debug` and `message` each read back as the call that wrote them: "OK", "ERROR", "UNKNOWN", the prefixes "ERROR ", "DEBUG " and "MESSAGE " with `m` unchanged, or the coordinates |
| Response.DecodableLinesDistinct | src/Response.cpp:9-47 | two different such calls never write the same line |
| CommandRouter.Register | src/CommandRouter.cpp:32-35 | the table with the entry under the upper-cased command set to the handler |
| CommandRouter.Route | src/CommandRouter.cpp:37-53 | a blank line is ignored; otherwise the first word, upper-cased, selects its handler, which gets the trimmed arguments, or the line is unrecognised |
| CommandRouter.Router.constructor | include/CommandRouter.hpp:16 | a new router has no handlers |
| CommandRouter.Router.RegisterHandler | src/CommandRouter.cpp:32-35 | the table gains, or replaces, the entry under the upper-cased name |
| CommandRouter.Router.Process | src/CommandRouter.cpp:37-53 | the dispatch is the routing decision for the line; only an unknown command writes output, exactly the line UNKNOWN; the table is not changed |
| CommandRouter.TrimEmptyIffAllSpace | src/CommandRouter.cpp:8-15 | a line trims to "" exactly when it is all whitespace |
| CommandRouter.RouteIgnoresBlank | src/CommandRouter.cpp:38-40 | a line is ignored, with no handler called and no output, exactly when it is empty or all whitespace |
| CommandRouter.RouteOfTrimmed | src/CommandRouter.cpp:44-52 | after trimming and splitting, the handler under the upper-cased command gets the arguments, or the answer is UNKNOWN |
| CommandRouter.RouteCommandLine | src/CommandRouter.cpp:37-53 | for a padded line "cmd<blank>args", the handler under `toUpper(cmd)` receives the args without surrounding whitespace; with no such handler the answer is UNKNOWN |
| CommandRouter.RouteCommandWord | src/CommandRouter.cpp:24-48 | a command word alone reaches its handler with empty arguments |
| CommandRouter.RouteAfterRegister | src/CommandRouter.cpp:32-48 | after registering a name, a command word of any letter case with the same upper case reaches the new handler |
| CommandRouter.ReRegisterReplaces | src/CommandRouter.cpp:32-35 | re-registering a name in any case replaces its handler, and every other entry is kept |
| Timing.ClampedBudget | include/TimeManager.hpp:10-12 | a negative budget counts as zero; any other budget is kept |
| Timing.TimeManager.Expired | include/TimeManager.hpp:16 | the clock reading has reached the deadline |
| Timing.DeadlineNotBeforeStart | include/TimeManager.hpp:9-14 | the deadline is never before the start time, and equals it exactly when the budget is not positive |
| Timing.TimeManager.constructor | include/TimeManager.hpp:16-19 | the deadline starts at the clock's minimum, so every reading counts as expired before any `start` |
| Timing.TimeManager.Start | include/TimeManager.hpp:9-16 | the new deadline is `now` plus the clamped budget, whatever it was before; `expired` then holds exactly from `now + max(b, 0)` ms on; a non-positive budget expires at once and a positive one does not |
| Timing.ExpiredStays | include/TimeManager.hpp:7-16 | with a clock that does not go back, expiry stays until the next `start` |
| Lines.Code | include/GameState.hpp:11 | the codes of None, One and Two lie in 0..2, and 0 is None |
| Lines.FromCode | src/GameState.cpp:84 | `static_cast<Player>` of a code in 0..2 is the player with that code |
| Lines.Index | src/GameState.cpp:32 | the row-major position `y * 20 + x` of an on-board cell is one of the 400 cells |
| Lines.IndexInjective | src/GameState.cpp:32 | two on-board cells share a position exactly when they are the same cell |
| Lines.At | src/GameState.cpp:28-33 | the owner of the cell at row-major position `y * 20 + x`, None off the board |
| Lines.Run | src/GameState.cpp:93-104 | the number of consecutive cells owned by the player, from one step away to the first cell off the board or not the player's |
| Lines.RunBounded | src/GameState.cpp:93-104 | the run counted from a cell is shorter than the room left on the board along each moving coordinate |
| Lines.RunOwned | src/GameState.cpp:93-104 | each of the cells counted by `countDirection`, the k-th for every k up to the count, is on the board and owned by the player |
| Lines.RunStops | src/GameState.cpp:93-104 | the cell just past the counted run is off the board or not the player's |
| Lines.RunCells | src/GameState.cpp:93-104 | the cells `countDirection` counts are on the board and owned by the player, and the next cell is not |
| Lines.RunAtLeast | src/GameState.cpp:93-104 | when the first `m` cells in a direction are owned, at least `m` are counted |
| Lines.WinAt | src/GameState.cpp:106-137 | the cell is taken and on one of the four axes `1 + forward + backward` reaches 5 |
| Lines.WinFor | src/GameState.cpp:139-152 | the player is not None and some on-board cell it owns satisfies `WinAt` |
| Lines.Winner | src/GameState.cpp:154-162 | One if One has won, else Two if Two has, else None |
| Lines.LineLengthIffFive | src/GameState.cpp:123-133 | `1 + forward + backward >= 5` on an axis holds exactly when five owned cells in a row along that axis include the cell, so six or seven in a row also win |
| Lines.WinAtIffFiveThrough | src/GameState.cpp:106-137 | `checkWin` is false on an empty cell, and otherwise true exactly when five of the owner's stones lie in a row through the cell on one of the four axes; a gap or an opponent's stone breaks the row |
| Lines.FiveInARowWins | tests/test_win_detection.cpp:27-172 | five in a row on any axis, anywhere including edges and corners, makes every one of the five stones win, and the player wins |
| Lines.StonesAtLeast | src/GameState.cpp:144-151 | distinct cells owned by a player are each counted among its stones |
| Lines.WindowStones | src/GameState.cpp:106-137 | five cells in a row owned by a player are five of its stones |
| Lines.WinNeedsFiveStones | src/GameState.cpp:106-137 | a winning cell's owner has at least five stones on the board |
| Lines.FourStonesNoWin | tests/test_win_detection.cpp:90-102 | a player with at most four stones has not won, wherever the stones are |
| Lines.WinnerPrefersOne | src/GameState.cpp:154-162 | the winner is One exactly when One has won, Two exactly when Two has won and One has not, otherwise None |
| Lines.EmptyBoardNoWinner | tests/test_win_detection.cpp:173-203 | an empty board has no winner |
| Board.Initial | src/GameState.cpp:4-7 | a new state is well formed: 400 empty cells and no history |
| Board.Turn | src/GameState.cpp:11-22 | with a history, One after an even number of moves and Two after an odd one; without one, One when the stone counts are equal, else Two |
| Board.PlayState | src/GameState.cpp:43-51 | `play` keeps the state well formed |
| Board.UndoState | src/GameState.cpp:53-60 | `undo` keeps the state well formed |
| Board.SetState | src/GameState.cpp:67-71 | `set(x, y, Player)` keeps the state well formed |
| Board.SetCodeState | src/GameState.cpp:77-86 | `set(x, y, int)` keeps the state well formed |
| Board.PlayThenUndo | src/GameState.cpp:43-60 | `undo` after a successful `play` restores the exact board and history |
| Board.PlayOutcome | src/GameState.cpp:43-51 | `play` succeeds exactly on an empty on-board cell; a refusal changes nothing; a success sets that cell, keeps every other cell and appends the move to the history |
| Board.PlayAlternatesTurn | src/GameState.cpp:11-51 | once there is a history, each successful `play` passes the turn to the other player |
| Board.TurnWithoutHistory | src/GameState.cpp:15-21 | with no history the turn is One exactly when the stone counts are equal, and Two when Two has more stones |
| Board.SetKeepsHistory | src/GameState.cpp:67-86 | neither `set` touches the history; the int overload succeeds exactly on the board with a code in 0..2 and then stores the player with that code |
| Board.RunStep | src/GameState.cpp:98-102 | one loop step of `countDirection` either extends the run by one, nearer to the edge, or ends it |
| Board.GameState.constructor | src/GameState.cpp:4-7 | whatever size is asked for, the board is 20 by 20 and empty, with no history |
| Board.GameState.IsValid | src/GameState.cpp:35-37 | true exactly for coordinates on the 20 by 20 board |
| Board.GameState.PlayerAt | src/GameState.cpp:28-33 | the owner of the cell, and None off the board |
| Board.GameState.IsEmpty | src/GameState.cpp:39-41 | true off the board, and on the board exactly when the cell is None |
| Board.GameState.Get | src/GameState.cpp:73-75 | a code in 0..2, 0 off the board, otherwise the code of the cell's owner |
| Board.GameState.CurrentPlayer | src/GameState.cpp:11-22 | never None; with a history, One exactly after an even number of moves; without one, One exactly when the stone counts are equal |
| Board.GameState.Play | src/GameState.cpp:43-51 | result and new board and history are those of `PlayState` |
| Board.GameState.Undo | src/GameState.cpp:53-60 | the new board and history are those of `UndoState` |
| Board.GameState.Clear | src/GameState.cpp:62-65 | every cell is emptied and the history dropped |
| Board.GameState.Set | src/GameState.cpp:67-71 | the new board is that of `SetState`; the history is kept |
| Board.GameState.SetCode | src/GameState.cpp:77-86 | result and new board are those of `SetCodeState` |
| Board.GameState.CountDirection | src/GameState.cpp:93-104 | the count is `Run`: the owned cells from one step away up to the first cell off the board or not the player's |
| Board.WinAtByAxes | src/GameState.cpp:106-137 | a cell wins exactly when one of the four axes scanned by `checkWin` gives a line of five or more |
| Board.GameState.CheckWin | src/GameState.cpp:106-137 | the result is the five-in-a-row rule `WinAt` at (x, y) |
| Board.GameState.CheckWinFor | src/GameState.cpp:139-152 | false for None; otherwise true exactly when some cell owned by the player wins |
| Board.GameState.GetWinner | src/GameState.cpp:154-162 | the result is `Winner` of the board |
| BotSession.InBounds | src/Bot.cpp:20-23 | both coordinates lie in [0, size) |
| BotSession.CellAt | src/Bot.cpp:30-33 | the code at position `y * size + x` of an in-bounds move |
| BotSession.Put | src/Bot.cpp:25-28 | the board with the cell at `y * size + x` set to a code; the cell count is kept |
| BotSession.OffsetInRange | src/Bot.cpp:25-33 | an in-bounds move's position `y * size + x` is inside the board, so `.at` never throws for it |
| BotSession.OffsetInjective | src/Bot.cpp:25-33 | different in-bounds moves have different positions |
| BotSession.PutOnlyThatCell | src/Bot.cpp:40-74 | writing a move's cell changes that cell and no other |
| BotSession.PutKeepsWellFormed | src/Bot.cpp:40-74 | writing a code in 0..2 keeps every cell in 0..2 and the cell count at size squared |
| BotSession.TakebackUndoesMove | src/Bot.cpp:40-74 | a stone placed on an empty cell and then taken back leaves the board as it was |
| BotSession.Bot.constructor | src/Bot.cpp:12-18 | a new bot has size 0 and no cells |
| BotSession.Bot.Start | src/Bot.cpp:3-10 | succeeds exactly for sizes 5 to 100, then the board is size*size empty cells; otherwise nothing changes |
| BotSession.Bot.Restart | src/Bot.cpp:12-18 | fails with nothing changed before a successful `start`; otherwise every cell is emptied and the size kept |
| BotSession.Bot.InBoundsNow | src/Bot.cpp:20-23 | `inBounds` against the current size, so false for every move before `start` |
| BotSession.Bot.IsEmpty | src/Bot.cpp:35-38 | the move's cell, at position `y * size + x`, holds 0 |
| BotSession.Bot.ApplyOpponentMove | src/Bot.cpp:40-46 | succeeds exactly on an in-bounds empty cell, which then holds 2 and is the only cell changed; otherwise nothing changes; the invariant is kept |
| BotSession.Bot.ApplyOurMove | src/Bot.cpp:48-54 | the same, writing 1 |
| BotSession.Bot.ApplyBoardMove | src/Bot.cpp:56-66 | succeeds exactly in bounds, with a code in 0..2, and either code 0 or an empty cell, so 0 may clear an occupied cell; only that cell changes; otherwise nothing changes |
| BotSession.Bot.Takeback | src/Bot.cpp:68-74 | succeeds exactly on an in-bounds occupied cell, whoever played it and whenever, emptying only that cell; otherwise nothing changes |
| BotSession.Bot.ChooseMove | src/Bot.cpp:76-93 | none before `start`; the centre when it is empty; otherwise the first empty cell in row-major order; the result is in bounds and empty, none exactly when no cell is empty; the board is not changed |
| BotSession.Bot.Size | src/Bot.cpp:95-98 | 0 exactly before `start`, otherwise 5 to 100, and the board holds its square number of cells |

## Left out

- The `main()` read-eval loop (src/main.cpp:60-178), including the BOARD sub-loop. It is stream plumbing around the calls modelled here.
- `Logger` (src/Logger.cpp, include/Logger.hpp), and the log calls in src/Response.cpp:5 and src/CommandRouter.cpp:42, 50. They write only to a log.
- Members declared in the headers without a body in the source files: `GameState::willWin`, `getLegalMoves`, `zobristHash`, `initZobrist` and `updateHash` (include/GameState.hpp:37-44). Also `Bot::setRule`, `setTimeoutTurnMs`, `minimax`, `evaluateBoard` and the transposition table (include/Bot.hpp:24-49). There is no behaviour to model.
- The `Bot` fields declared in include/Bot.hpp (`gameState_`, `boardSize()`). They are not the ones src/Bot.cpp uses.
- The history accessor and the `size` getter of `GameState` (src/GameState.cpp:9, 24-26). They return a field, which the model exposes directly.
- The `is_empty` and `in_bounds` aliases (src/GameState.cpp:88-89). They forward to `isEmpty` and `isValid`.
- The `move(pair)` overload (src/Response.cpp:14-17). It forwards to `move(x, y)`, so it writes the same line.
- Handlers are identifiers; what a handler does when called is not part of `CommandRouter`.
- Locale: `std::isspace` and `std::toupper` are taken in the C locale (the six ASCII whitespace characters, and a-z only).
- Response.Classify reads back every reply kind except `about` and `raw`. A `raw` line can hold any text, so it cannot be told apart from the others. The `about` values are read back separately, by `QuotedValues`.
- BotSession.Bot.IsEmpty: requires an in-bounds move, because every caller in src/Bot.cpp tests `inBounds` first (src/Bot.cpp:42, 50, 58, 70, 82). Out of bounds, `cell` indexes at `y * size + x`, which can name another cell or lie outside the vector; the model does not say which.
- Timing.TimeManager.Start: the sum `now + budget` is unbounded. A budget large enough to overflow the clock's 64-bit representation is not modelled.
- Board.GameState: its board is an `array`. The constructor allocates it fresh and the field is `const`, so no other object shares it; the source's `std::vector` is likewise owned by the object.
