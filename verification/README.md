# N-in-a-row game engine: a Dafny model

This project models the game engine of a small terminal N-in-a-row game
(five in a row, gomoku style) whose whole program is `src/main.rs`. Two
players take turns placing stones on a 15 by 15 board. They type positions
such as `12 14`. The program reads each line and parses it into a
`Position(row, col)`. It refuses the line with "Not 2 parts", "Not an
integer" or "Too large", or refuses a taken cell with "Position taken!".
Otherwise it writes the current player's stone and passes the turn. The
engine also has a horizontal run check, a winner query that is still a stub,
and a tie test.

The Dafny modules follow the program's pieces:

- `Results` (`results.dfy`): `Option` and `Result`.
- `Board` (`board.dfy`): `Intersection`, the board as a `seq<seq<...>>`,
  `Position`, `WINNING_LEN`, `make_board`, and the cell assignment of `main`.
- `Text` (`text.dfy`): Rust's `char::is_whitespace` (the full Unicode
  White_Space set), `str::trim`, `str::split_whitespace`, and decimal
  numerals (value of a numeral, the numeral of a value).
- `Parse` (`parse.dfy`): `str::parse::<usize>` on a 64-bit target,
  `parse_position_part` and `parse_position`, and every line of the parser's
  unit test.
- `Rules` (`rules.dfy`): `position_available`, `check_horizontal` as written
  and as intended, `game_get_winner`, `game_is_tie`, a count of empty cells,
  and the tie unit test.
- `Turn` (`turn.dfy`): one turn of `main`'s loop as a pure transition
  (`Step` on a parse result, `TakeTurn` on a line), and the loop over a
  finite sequence of input lines (`Play`).

`Play` parses all the lines first, against the width of the starting board,
and then steps through the parse results. The board never changes width, so
this equals `main`, which parses each line against `board_size` as it reads
it. `Turn.PlayUnrolls` proves the equality one turn at a time: the first line
is one `TakeTurn`, and the rest are played from the game it leaves.

## Model

| member | source | states |
|---|---|---|
| Board.MakeBoard | src/main.rs:15-17 | `make_board(n)` has `n` rows of `n` cells each, and every cell is `Empty` |
| Board.Place | src/main.rs:123 | writing one cell changes that cell to the written value and no other cell, and keeps the board square |
| Rules.PositionAvailable | src/main.rs:63-66 | a position on the board is available iff its cell is `Empty` |
| Rules.AvailableOnNewBoard | src/main.rs:63-66 | every on-board position of a fresh board is available |
| Rules.PlaceTakesPosition | src/main.rs:63-66 | after a stone is placed at `p`, `p` is not available, and every other position is as available as before |
| Rules.ScanRow | src/main.rs:75-80 | the scan loop returns `Some(id)` iff every inspected cell holds `Player(id)` and none lies past the row; it panics iff the cells up to the row's end all hold `Player(id)` and the range runs past the end |
| Rules.CheckHorizontal | src/main.rs:68-85 | as written: `None` on an empty origin or when fewer than `WINNING_LEN` columns remain; `Some(id)` iff the origin and the `WINNING_LEN` cells after it hold `Player(id)`; a panic iff the origin's stones run exactly to the right edge from `col == len - 5` |
| Rules.CheckHorizontalFixed | src/main.rs:68-85 | as intended: `Some(id)` iff the `WINNING_LEN` cells starting at the origin fit on the board and all hold `Player(id)`; `None` iff the run leaves the board, the origin is empty, or some cell of the run differs |
| Rules.CheckHorizontalSound | src/main.rs:68-85 | every run the as-written check reports is a run for the intended check |
| Rules.CheckHorizontalPanicsAtEdge | src/main.rs:73-79 | on a 5-wide board whose first row is all player 0, the as-written check panics, while the intended check reports player 0 |
| Rules.CheckHorizontalMissesFive | src/main.rs:75 | with exactly five stones and an empty sixth cell, the as-written check reports no run, while the intended check reports player 0 |
| Rules.GameGetWinner | src/main.rs:87-97 | the winner query reports no winner on every board |
| Rules.RowFull | src/main.rs:100 | a row is full iff none of its cells is `Empty` |
| Rules.GameIsTie | src/main.rs:99-101 | a board is a tie iff none of its cells is `Empty` |
| Rules.TieIffNoEmpty | src/main.rs:99-101 | a board is a tie iff its count of empty cells is zero |
| Rules.CountEmptyPlace | src/main.rs:121-123 | placing a stone on an empty cell leaves exactly one empty cell fewer |
| Rules.CountEmptyNewBoard | src/main.rs:15-17 | a fresh `n`-wide board has `n * n` empty cells |
| Rules.FilledRowMajorStep | src/main.rs:181-185 | one step of the tie test's nested loop: filling `k + 1` cells in row-major order is filling `k` cells and then writing player 0 at `(k / n, k % n)` |
| Rules.TieOnlyWhenFilled | src/main.rs:176-188 | filling an `n` by `n` board cell by cell in row-major order, the board is a tie exactly when all `n * n` cells are filled |
| Text.TrimStart | src/main.rs:46 | the result is a suffix of the input, everything dropped is whitespace, and the result does not start with whitespace |
| Text.TrimEnd | src/main.rs:46 | the result is a prefix of the input, everything dropped is whitespace, and the result does not end with whitespace |
| Text.Trim | src/main.rs:46 | the trimmed text neither starts nor ends with whitespace, and text without whitespace is left as it is (`Text.TrimKeepsMiddle` adds that it is the middle of the input) |
| Text.TrimKeepsMiddle | src/main.rs:46 | the trimmed text is the part of the input between a whitespace prefix and a whitespace suffix, so nothing but leading and trailing whitespace is removed |
| Text.Tokens | src/main.rs:55 | every part of `split_whitespace` is a non-empty run without whitespace |
| Text.TokensOfTrim | src/main.rs:55 | trimming before splitting on whitespace gives the same parts |
| Text.TokensSkipLeading | src/main.rs:55 | leading whitespace produces no part |
| Text.TokensOfJoin | src/main.rs:55 | any words laid out with any whitespace before, between (at least one character) and after them split back into exactly those words |
| Text.DecimalValueOfDecimal | src/main.rs:46 | reading back the numeral of a number gives the number |
| Text.DecimalOfDecimalValue | src/main.rs:46 | writing back the value of a numeral without sign or leading zeros gives the numeral |
| Parse.ParseUsize | src/main.rs:46 | `parse::<usize>` succeeds exactly on an optional '+' followed by at least one digit and nothing else (leading zeros allowed) whose value is at most `usize::MAX`, and then yields that value; a leading '-', the empty text and a lone '+' fail |
| Parse.ParseUsizeOfDecimal | src/main.rs:46 | every `usize` is read back from its numeral, with or without a leading '+' |
| Parse.ParseUsizeStray | src/main.rs:46 | any character other than a digit (bar one leading '+') makes the text fail to parse |
| Parse.ParseUsizeCanonical | src/main.rs:46 | a numeral without sign or leading zeros that parses is the numeral of the value read |
| Parse.ParsePositionPart | src/main.rs:45-52 | the part parser accepts exactly the trimmed `usize` numerals below the board size; it fails with "Not an integer" iff the trimmed part is no `usize`, and with "Too large" iff it is one but not below the board size |
| Parse.ParsePositionPartOfDecimal | src/main.rs:45-52 | the numeral of a `usize` passes the integer check, and the range check alone decides |
| Parse.ParseParts | src/main.rs:56-60 | "Not 2 parts" iff there are not exactly two parts; success iff both parts are accepted, giving a position on the board; the row's error comes before the column's |
| Parse.ParsePosition | src/main.rs:54-61 | parsing a line is checking the whitespace-split parts of the untrimmed line, since trimming first changes nothing |
| Parse.ParsePositionOfDecimals | src/main.rs:54-61 | two numerals of on-board coordinates, with any whitespace before, between (at least one character) and after them, are read as that position |
| Parse.ParsePositionPartCount | src/main.rs:56-57 | any line laid out as a number of words other than two is refused with "Not 2 parts" |
| Parse.ParsePositionOfWords | src/main.rs:59 | a line of two words that the part parser accepts is read as that position |
| Parse.ParsePositionFirstNotInteger | src/main.rs:59 | a two-word line whose first word is no `usize` is refused with "Not an integer", whatever the second word is |
| Parse.ParsePositionSecondTooLarge | src/main.rs:59 | a two-word line with an accepted first word and an out-of-range second word is refused with "Too large" |
| Parse.AcceptedPair | src/main.rs:54-61 | two on-board numerals one space apart are read as that position |
| Parse.RefusedPair | src/main.rs:47-48 | two numerals one space apart, the first on the board and the second off it, are refused with "Too large" |
| Parse.RefusedFirstWord | src/main.rs:46 | two words one space apart whose first holds a stray character are refused with "Not an integer" |
| Parse.AcceptedExample | src/main.rs:160-161 | `"12 14"` is read as `Position(12, 14)` on any board wider than 14 |
| Parse.AcceptedZeroExample | src/main.rs:163-164 | `"0 1"` is read as `Position(0, 1)` |
| Parse.AcceptedSpacedExample | src/main.rs:166-167 | `" 12  14  "` is read as `Position(12, 14)` |
| Parse.RefusedRangeExample | src/main.rs:169-172 | `"12 15"` is refused with "Too large" on the 15-wide board |
| Parse.RefusedSignExample | src/main.rs:169-172 | `"-1 2"` is refused with "Not an integer" |
| Parse.RefusedFractionExample | src/main.rs:169-172 | `"12.0 15"` is refused with "Not an integer" |
| Parse.RefusedLettersExample | src/main.rs:169-172 | `"he he"` is refused with "Not an integer" |
| Parse.RefusedCommaExample | src/main.rs:169-172 | `"1, 2"` is refused with "Not an integer" |
| Parse.RefusedThreePartsExample | src/main.rs:169-172 | `"12 1 1"` is refused with "Not 2 parts" |
| Parse.RefusedBlankExamples | src/main.rs:169-172 | `""` and `"\n"` are refused with "Not 2 parts" |
| Turn.NewGame | src/main.rs:104-107 | the starting game is valid, its board is `make_board(n)` with `n * n` empty cells, and player 0 moves first |
| Turn.Report | src/main.rs:124-131 | a turn prints nothing iff it placed a stone; a taken cell prints "Position taken!" and a refused line prints the parser's error message |
| Turn.ReportDistinct | src/main.rs:124-131 | different feedback prints different lines |
| Turn.NextPlayer | src/main.rs:135 | the next player is a player, and it is player 0 exactly after the last player |
| Turn.NextPlayerIsModulo | src/main.rs:135 | the next player is `(curr_player + 1) % num_players` |
| Turn.AdvanceIsModulo | src/main.rs:135 | passing the turn `m` times from player `p` reaches `(p + m) % num_players` |
| Turn.Step | src/main.rs:119-135 | a stone is placed iff the parse succeeded on an empty cell, and then exactly that cell becomes the current player's and the turn passes; a taken cell reports "Position taken!"; a parse error is reported as is; a refused move leaves board and player unchanged; the game stays valid |
| Turn.TakeTurn | src/main.rs:119-135 | one turn on an input line keeps the game valid and the board's width |
| Turn.TakeTurnRefused | src/main.rs:124-132 | a turn that places no stone leaves the game unchanged |
| Turn.TakeTurnPasses | src/main.rs:120-135 | a turn that places a stone passes the turn to the next player |
| Turn.TakeTurnCountsEmpty | src/main.rs:120-123 | a turn that places a stone uses up exactly one empty cell |
| Turn.ParseLines | src/main.rs:119 | every position parsed from the input lines is on the board |
| Turn.Play | src/main.rs:109-136 | the loop keeps the game valid and the board's width, and places at most one stone per line |
| Turn.PlayUnrolls | src/main.rs:109-136 | the loop is one `TakeTurn` on the first line followed by the loop on the remaining lines |
| Turn.PlayCountsEmpty | src/main.rs:109-136 | over any run of turns, the empty cells left plus the stones placed equal the empty cells at the start |
| Turn.PlayRotates | src/main.rs:109-136 | over any run of turns, the turn passes exactly once per placed stone |
| Turn.TieExactlyWhenFull | src/main.rs:99-136 | from a fresh `n`-wide board, whatever lines are typed, the board is a tie exactly when `n * n` stones have been placed |

## Left out

- `board_to_string` (src/main.rs:19-40) is not modelled. It only formats the board for display.
- Reading lines from stdin, the `println!` calls and the panic of `expect` on a failed read are not modelled. The unbounded `loop` becomes a fold over a finite sequence of lines.
- `usize` is modelled as unbounded `nat`, with a 64-bit target assumed: `usize::MAX` is `2^64 - 1`. A numeral above it is refused with "Not an integer", because `parse::<usize>` fails on overflow. The player counter `(curr_player + 1) % num_players` cannot overflow with two players.
- Vertical and diagonal run checks exist in the source only as comments (src/main.rs:90-93), so they are not modelled. `game_get_winner` is modelled as the constant `None` it returns.
- `make_board(0)` returns an empty board rather than failing, and `position_available` indexes the board without a bounds check. The model keeps both as the code has them.
- Rules.PositionAvailable: requires the position to be on the board, where Rust would panic on an out-of-range index. `main` only calls it with positions the parser has checked against the board's width.
- Rules.CheckHorizontal: requires an origin on the board, where Rust would panic on an out-of-range origin; no caller exists that passes one. It also requires a square board: `make_board` builds boards square and nothing resizes them. Panics inside the scan loop are modelled as the `Panics` outcome.
- Rules.CheckHorizontalFixed: has the same two requirements as `Rules.CheckHorizontal`.
- Turn.Step: requires an accepted position to be on the board, which the parser guarantees for every position it accepts.

## Findings

| source | as written | input that shows it | evidently intended | confidence | as-written member | corrected member |
|---|---|---|---|---|---|---|
| src/main.rs:73-79 | the guard `board.len() - col >= WINNING_LEN` lets the loop index `col + WINNING_LEN`, which equals `board.len()` when `col == len - 5` | a 5-wide board whose first row is all player 0, origin `(0, 0)`: the index `board[0][5]` is out of bounds and panics | report player 0's run and never read past the edge | high (not executed) | Rules.CheckHorizontalPanicsAtEdge | Rules.CheckHorizontalFixed |
| src/main.rs:75 | the range `col + 1..col + WINNING_LEN + 1` inspects `WINNING_LEN` cells after the origin, so a run needs six stones | the 15-wide board with player 0 on `(0, 0)`..`(0, 4)` and `(0, 5)` empty: the check returns `None` | five equal stones starting at the origin are a run | high (not executed) | Rules.CheckHorizontalMissesFive | Rules.CheckHorizontalFixed |
