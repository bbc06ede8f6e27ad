/** The board of the game: a square grid of intersections, each empty or
    holding one player's stone (src/main.rs, `Intersection`, `Board`,
    `make_board`, and the assignment `board[row][col] = ...` of `main`). */
module Board {

  /** `Intersection`: a cell is empty or holds the stone of player `id`. */
  datatype Intersection = Empty | Player(id: nat)

  /** `Board`: rows of intersections, `board[row][col]`. */
  type Grid = seq<seq<Intersection>>

  /** `Position(row, col)`. */
  datatype Position = Position(row: nat, col: nat)

  /** `WINNING_LEN`. */
  const WinningLen: nat := 5

  /** Every row is as long as there are rows. */
  predicate IsSquare(b: Grid) {
    forall i :: 0 <= i < |b| ==> |b[i]| == |b|
  }

  predicate InBounds(b: Grid, p: Position) {
    p.row < |b| && p.col < |b[p.row]|
  }

  /** `b'` has the shape of `b` and agrees with it everywhere except at `p`. */
  predicate SameExcept(b: Grid, b': Grid, p: Position) {
    && |b'| == |b|
    && (forall i :: 0 <= i < |b| ==> |b'[i]| == |b[i]|)
    && (forall i, j :: 0 <= i < |b| && 0 <= j < |b[i]| && (i != p.row || j != p.col) ==>
          b'[i][j] == b[i][j])
  }

  /** `make_board(n)`: `n` rows of `n` empty intersections. */
  function MakeBoard(n: nat): (b: Grid)
    ensures |b| == n && IsSquare(b)
    ensures forall i, j :: 0 <= i < n && 0 <= j < n ==> b[i][j] == Empty
  {
    seq(n, _ => seq(n, _ => Empty))
  }

  /** The assignment `board[row][col] = v`: one cell overwritten, whatever it held. */
  function Place(b: Grid, p: Position, v: Intersection): (b': Grid)
    requires InBounds(b, p)
    ensures SameExcept(b, b', p)
    ensures b'[p.row][p.col] == v
    ensures IsSquare(b) ==> IsSquare(b')
  {
    b[p.row := b[p.row][p.col := v]]
  }
}
