/** One turn of the loop of `main` in src/main.rs, as a pure transition:
    parse the line, check the position, write the stone, pass the turn.
    Reading the line and printing the board and messages are left to the
    caller. */
module Turn {
  import opened Results
  import opened Board
  import opened Parse
  import opened Rules

  /** The number of players `main` starts with. */
  const NumPlayers: nat := 2

  /** The state the loop carries from turn to turn. */
  datatype Game = Game(board: Grid, player: nat)

  /** What a turn reports: the stone was placed, the position was taken
      ("Position taken!"), or the line was refused with the parser's error. */
  datatype Feedback = Placed | Taken | Refused(error: ParseError)

  datatype Outcome = Outcome(game: Game, feedback: Feedback)

  /** The line `main` prints for a turn's feedback, if any. */
  function Report(f: Feedback): (m: Option<string>)
    ensures m.None? <==> f == Placed
    ensures f == Taken ==> m == Some("Position taken!")
    ensures f.Refused? ==> m == Some(Message(f.error))
  {
    match f
    case Placed => None
    case Taken => Some("Position taken!")
    case Refused(e) => Some(Message(e))
  }

  /** Different feedback prints differently, so a player can tell every
      refusal apart. */
  lemma ReportDistinct(f1: Feedback, f2: Feedback)
    requires f1 != f2
    ensures Report(f1) != Report(f2)
  {
  }

  /** What the loop keeps true between turns: a square board, a current
      player among the players, and only their stones on the board. */
  predicate Valid(g: Game, numPlayers: nat) {
    && numPlayers > 0
    && IsSquare(g.board)
    && g.player < numPlayers
    && StonesOf(g.board, numPlayers)
  }

  /** Every stone on the board is one of the players'. */
  predicate StonesOf(b: Grid, numPlayers: nat) {
    forall i, j :: 0 <= i < |b| && 0 <= j < |b[i]| && b[i][j].Player? ==> b[i][j].id < numPlayers
  }

  /** The game before the first turn: an empty board, player 0 to move. */
  function NewGame(n: nat): (g: Game)
    ensures Valid(g, NumPlayers) && |g.board| == n
    ensures g.board == MakeBoard(n) && g.player == 0
    ensures CountEmpty(g.board) == n * n
  {
    CountEmptyNewBoard(n);
    Game(MakeBoard(n), 0)
  }

  /** The turn passes to the next player, and after the last one back to
      player 0. */
  function NextPlayer(p: nat, numPlayers: nat): (q: nat)
    requires numPlayers > 0 && p < numPlayers
    ensures q < numPlayers
    ensures q == 0 <==> p == numPlayers - 1
  {
    if p + 1 == numPlayers then 0 else p + 1
  }

  /** `curr_player = (curr_player + 1) % num_players` computes the next player. */
  lemma NextPlayerIsModulo(p: nat, numPlayers: nat)
    requires numPlayers > 0 && p < numPlayers
    ensures NextPlayer(p, numPlayers) == (p + 1) % numPlayers
  {
    if p + 1 == numPlayers {
      DivModUnique(p + 1, 1, 0, numPlayers);
    } else {
      DivModUnique(p + 1, 0, p + 1, numPlayers);
    }
  }

  /** The player `m` turns on from player `p`. */
  function Advance(p: nat, m: nat, numPlayers: nat): (q: nat)
    requires numPlayers > 0 && p < numPlayers
    ensures q < numPlayers
  {
    if m == 0 then p else NextPlayer(Advance(p, m - 1, numPlayers), numPlayers)
  }

  /** One more than a number leaves the next remainder, or 0 after the last. */
  lemma ModSucc(x: nat, n: nat)
    requires n > 0
    ensures (x + 1) % n == if x % n + 1 == n then 0 else x % n + 1
  {
    var k, q := x / n, x % n;
    assert x == k * n + q;
    if q + 1 == n {
      assert x + 1 == (k + 1) * n + 0;
      DivModUnique(x + 1, k + 1, 0, n);
    } else {
      DivModUnique(x + 1, k, q + 1, n);
    }
  }

  lemma NextOfModulo(a: nat, x: nat, numPlayers: nat)
    requires numPlayers > 0 && a == x % numPlayers
    ensures NextPlayer(a, numPlayers) == (x + 1) % numPlayers
  {
    ModSucc(x, numPlayers);
  }

  /** Passing the turn `m` times from player `p` reaches player
      `(p + m) % numPlayers`. */
  lemma {:induction false} AdvanceIsModulo(p: nat, m: nat, numPlayers: nat)
    requires numPlayers > 0 && p < numPlayers
    ensures Advance(p, m, numPlayers) == (p + m) % numPlayers
  {
    if m == 0 {
      DivModUnique(p, 0, p, numPlayers);
    } else {
      AdvanceIsModulo(p, m - 1, numPlayers);
      NextOfModulo(Advance(p, m - 1, numPlayers), p + m - 1, numPlayers);
    }
  }

  /** Passing the turn once more after `m` times. */
  lemma {:induction false} AdvanceSucc(p: nat, m: nat, numPlayers: nat)
    requires numPlayers > 0 && p < numPlayers
    ensures Advance(NextPlayer(p, numPlayers), m, numPlayers) == Advance(p, m + 1, numPlayers)
  {
    if m > 0 {
      AdvanceSucc(p, m - 1, numPlayers);
    }
  }

  /** The `match` of `main` on an already parsed line. A parsed position is
      on the board, since the parser checks it against the board's width. */
  function Step(g: Game, numPlayers: nat, parsed: Result<Position, ParseError>): (r: Outcome)
    requires numPlayers > 0 && g.player < numPlayers && IsSquare(g.board)
    requires parsed.Ok? ==> InBounds(g.board, parsed.value)
    ensures r.feedback == Placed <==> parsed.Ok? && g.board[parsed.value.row][parsed.value.col] == Empty
    ensures r.feedback == Taken <==> parsed.Ok? && g.board[parsed.value.row][parsed.value.col] != Empty
    ensures parsed.Err? ==> r.feedback == Refused(parsed.error)
    ensures r.feedback == Placed ==>
              && SameExcept(g.board, r.game.board, parsed.value)
              && r.game.board[parsed.value.row][parsed.value.col] == Player(g.player)
              && r.game.player == NextPlayer(g.player, numPlayers)
    ensures r.feedback != Placed ==> r.game == g
    ensures Valid(g, numPlayers) ==> Valid(r.game, numPlayers)
    ensures |r.game.board| == |g.board|
  {
    match parsed
    case Err(e) => Outcome(g, Refused(e))
    case Ok(pos) =>
      if PositionAvailable(pos, g.board) then
        Outcome(Game(Place(g.board, pos, Player(g.player)), NextPlayer(g.player, numPlayers)), Placed)
      else
        Outcome(g, Taken)
  }

  /** A position the parser accepts for a width is within it. */
  lemma ParsedOnSize(line: string, size: nat)
    ensures ParsePosition(line, size).Ok? ==>
              ParsePosition(line, size).value.row < size && ParsePosition(line, size).value.col < size
  {
  }

  /** A position the parser accepts for a board's width is on the board. */
  lemma ParsedOnBoard(line: string, b: Grid)
    requires IsSquare(b)
    ensures ParsePosition(line, |b|).Ok? ==> InBounds(b, ParsePosition(line, |b|).value)
  {
  }

  /** A placed stone uses up exactly one empty cell. */
  lemma StepCountsEmpty(g: Game, numPlayers: nat, parsed: Result<Position, ParseError>)
    requires Valid(g, numPlayers)
    requires parsed.Ok? ==> InBounds(g.board, parsed.value)
    ensures Step(g, numPlayers, parsed).feedback == Placed ==>
              CountEmpty(Step(g, numPlayers, parsed).game.board) + 1 == CountEmpty(g.board)
  {
    if Step(g, numPlayers, parsed).feedback == Placed {
      CountEmptyPlace(g.board, parsed.value, g.player);
    }
  }

  /** One turn of `main` on an input line, parsed against the board's width:
      it keeps the loop's invariant. */
  function TakeTurn(g: Game, numPlayers: nat, line: string): (o: Outcome)
    requires Valid(g, numPlayers)
    ensures Valid(o.game, numPlayers) && |o.game.board| == |g.board|
  {
    ParsedOnBoard(line, g.board);
    Step(g, numPlayers, ParsePosition(line, |g.board|))
  }

  /** A turn that places no stone changes nothing. */
  lemma TakeTurnRefused(g: Game, numPlayers: nat, line: string)
    requires Valid(g, numPlayers)
    ensures TakeTurn(g, numPlayers, line).feedback != Placed ==> TakeTurn(g, numPlayers, line).game == g
  {
    ParsedOnBoard(line, g.board);
  }

  /** A turn that places a stone passes the turn. */
  lemma TakeTurnPasses(g: Game, numPlayers: nat, line: string)
    requires Valid(g, numPlayers)
    ensures TakeTurn(g, numPlayers, line).feedback == Placed ==>
              TakeTurn(g, numPlayers, line).game.player == NextPlayer(g.player, numPlayers)
  {
    ParsedOnBoard(line, g.board);
  }

  /** A turn that places a stone uses up exactly one empty cell. */
  lemma TakeTurnCountsEmpty(g: Game, numPlayers: nat, line: string)
    requires Valid(g, numPlayers)
    ensures TakeTurn(g, numPlayers, line).feedback == Placed ==>
              CountEmpty(TakeTurn(g, numPlayers, line).game.board) + 1 == CountEmpty(g.board)
  {
    ParsedOnBoard(line, g.board);
    StepCountsEmpty(g, numPlayers, ParsePosition(line, |g.board|));
  }

  /** Every accepted position in `moves` is on a board of width `size`. */
  predicate OnBoard(moves: seq<Result<Position, ParseError>>, size: nat) {
    forall k :: 0 <= k < |moves| && moves[k].Ok? ==> moves[k].value.row < size && moves[k].value.col < size
  }

  /** `f` applied to every element of `xs`. */
  function Map<A, B>(f: A -> B, xs: seq<A>): (ys: seq<B>)
    ensures |ys| == |xs| && forall k :: 0 <= k < |xs| ==> ys[k] == f(xs[k])
  {
    seq(|xs|, k requires 0 <= k < |xs| => f(xs[k]))
  }

  lemma MapSplit<A, B>(f: A -> B, xs: seq<A>)
    requires |xs| > 0
    ensures Map(f, xs)[0] == f(xs[0]) && Map(f, xs)[1..] == Map(f, xs[1..])
  {
    assert Map(f, xs)[1..] == Map(f, xs[1..]);
  }

  /** The input lines, each parsed against a board of width `size`. The
      board never changes width, so parsing every line against the width
      of the first board is parsing each against the board of its turn. */
  function ParseLines(lines: seq<string>, size: nat): (moves: seq<Result<Position, ParseError>>)
    ensures |moves| == |lines| && OnBoard(moves, size)
  {
    var moves := Map(line => ParsePosition(line, size), lines);
    assert OnBoard(moves, size) by {
      forall k | 0 <= k < |moves| && moves[k].Ok?
        ensures moves[k].value.row < size && moves[k].value.col < size
      {
        ParsedOnSize(lines[k], size);
      }
    }
    moves
  }

  lemma OnBoardTail(moves: seq<Result<Position, ParseError>>, size: nat)
    requires OnBoard(moves, size) && |moves| > 0
    ensures OnBoard(moves[1..], size)
  {
    forall k | 0 <= k < |moves| - 1 ensures moves[1..][k] == moves[k + 1] { }
  }

  /** The loop of `main` over already parsed lines: the final game and the
      number of stones placed. */
  function PlayMoves(g: Game, numPlayers: nat, moves: seq<Result<Position, ParseError>>): (r: (Game, nat))
    requires Valid(g, numPlayers) && OnBoard(moves, |g.board|)
    ensures Valid(r.0, numPlayers) && |r.0.board| == |g.board|
    ensures r.1 <= |moves|
    decreases |moves|
  {
    if |moves| == 0 then (g, 0)
    else
      OnBoardTail(moves, |g.board|);
      var o := Step(g, numPlayers, moves[0]);
      var rest := PlayMoves(o.game, numPlayers, moves[1..]);
      if o.feedback == Placed then (rest.0, rest.1 + 1) else rest
  }

  /** The loop of `main` over a sequence of input lines: the final game and
      the number of stones placed. */
  function Play(g: Game, numPlayers: nat, lines: seq<string>): (r: (Game, nat))
    requires Valid(g, numPlayers)
    ensures Valid(r.0, numPlayers) && |r.0.board| == |g.board|
    ensures r.1 <= |lines|
  {
    PlayMoves(g, numPlayers, ParseLines(lines, |g.board|))
  }

  /** `Play` is the loop of `main`: the first line is one `TakeTurn`, and
      the remaining lines are played from the game it leaves. */
  lemma {:induction false} PlayUnrolls(g: Game, numPlayers: nat, lines: seq<string>)
    requires Valid(g, numPlayers) && |lines| > 0
    ensures var o := TakeTurn(g, numPlayers, lines[0]);
            var rest := Play(o.game, numPlayers, lines[1..]);
            Play(g, numPlayers, lines) == if o.feedback == Placed then (rest.0, rest.1 + 1) else rest
  {
    ParseLinesSplit(lines, |g.board|);
  }

  /** Parsing the lines is parsing the first, then the rest. */
  lemma ParseLinesSplit(lines: seq<string>, size: nat)
    requires |lines| > 0
    ensures ParseLines(lines, size)[0] == ParsePosition(lines[0], size)
    ensures ParseLines(lines, size)[1..] == ParseLines(lines[1..], size)
  {
    MapSplit(line => ParsePosition(line, size), lines);
  }

  lemma {:induction false} PlayMovesCountsEmpty(g: Game, numPlayers: nat, moves: seq<Result<Position, ParseError>>)
    requires Valid(g, numPlayers) && OnBoard(moves, |g.board|)
    ensures CountEmpty(PlayMoves(g, numPlayers, moves).0.board) + PlayMoves(g, numPlayers, moves).1
            == CountEmpty(g.board)
    decreases |moves|
  {
    if |moves| > 0 {
      OnBoardTail(moves, |g.board|);
      StepCountsEmpty(g, numPlayers, moves[0]);
      PlayMovesCountsEmpty(Step(g, numPlayers, moves[0]).game, numPlayers, moves[1..]);
    }
  }

  /** Over any run of turns, every placed stone uses up one empty cell;
      refused lines and taken positions use up none. */
  lemma PlayCountsEmpty(g: Game, numPlayers: nat, lines: seq<string>)
    requires Valid(g, numPlayers)
    ensures CountEmpty(Play(g, numPlayers, lines).0.board) + Play(g, numPlayers, lines).1
            == CountEmpty(g.board)
  {
    PlayMovesCountsEmpty(g, numPlayers, ParseLines(lines, |g.board|));
  }

  /** Passing the turn once and then `m` more times is passing it `m + 1` times. */
  lemma RotateOnce(p: nat, q: nat, passed: bool, m: nat, numPlayers: nat)
    requires numPlayers > 0 && p < numPlayers
    requires q == if passed then NextPlayer(p, numPlayers) else p
    ensures Advance(q, m, numPlayers) == Advance(p, if passed then m + 1 else m, numPlayers)
  {
    if passed {
      AdvanceSucc(p, m, numPlayers);
    }
  }

  lemma {:induction false} PlayMovesRotates(g: Game, numPlayers: nat, moves: seq<Result<Position, ParseError>>)
    requires Valid(g, numPlayers) && OnBoard(moves, |g.board|)
    ensures PlayMoves(g, numPlayers, moves).0.player
            == Advance(g.player, PlayMoves(g, numPlayers, moves).1, numPlayers)
    decreases |moves|
  {
    if |moves| > 0 {
      OnBoardTail(moves, |g.board|);
      var o := Step(g, numPlayers, moves[0]);
      var rest := PlayMoves(o.game, numPlayers, moves[1..]);
      PlayMovesRotates(o.game, numPlayers, moves[1..]);
      RotateOnce(g.player, o.game.player, o.feedback == Placed, rest.1, numPlayers);
    }
  }

  /** Over any run of turns, the turn passes once per placed stone and never
      on a refused line or a taken position. */
  lemma PlayRotates(g: Game, numPlayers: nat, lines: seq<string>)
    requires Valid(g, numPlayers)
    ensures Play(g, numPlayers, lines).0.player
            == Advance(g.player, Play(g, numPlayers, lines).1, numPlayers)
  {
    PlayMovesRotates(g, numPlayers, ParseLines(lines, |g.board|));
  }

  /** From a fresh board, whatever lines are typed in whatever order, the
      board is a tie exactly when `n * n` stones have been placed. */
  lemma TieExactlyWhenFull(n: nat, lines: seq<string>)
    ensures GameIsTie(Play(NewGame(n), NumPlayers, lines).0.board)
            <==> Play(NewGame(n), NumPlayers, lines).1 == n * n
  {
    var r := Play(NewGame(n), NumPlayers, lines);
    PlayCountsEmpty(NewGame(n), NumPlayers, lines);
    TieIffNoEmpty(r.0.board);
  }
}
